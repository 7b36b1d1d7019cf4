/** The small-memory heap of rt-thread/src/mem.c as a list of blocks: what each call does
    to the list, independent of how the headers are linked. */
module SmallMemModel {
  import opened Align

  /** RT_ALIGN_SIZE, SIZEOF_STRUCT_MEM and MIN_SIZE; the firmware builds with 8, 16 and 12. */
  datatype Config = Config(align: nat, header: nat, minSize: nat) {
    ghost predicate Valid() {
      0 < align <= header <= WORD - align && 0 < minSize <= header
    }
  }

  /** A block header at heap offset `off`; its extent reaches to the next header. */
  datatype Block = Block(off: nat, used: bool)

  function MinAligned(c: Config): (r: nat)
    requires c.Valid()
    ensures c.minSize <= r < WORD
  {
    RtAlignIsCeiling(c.minSize, c.align);
    RtAlign(c.minSize, c.align)
  }

  /** The payload size rt_smem_alloc searches for. */
  function Request(c: Config, n: nat): (r: nat)
    requires c.Valid()
    ensures r >= MinAligned(c)
  {
    var a := RtAlign(n, c.align);
    if a < MinAligned(c) then MinAligned(c) else a
  }

  /** Offset of header i, or of heap_end. */
  function At(bs: seq<Block>, end: nat, i: nat): nat
    requires i <= |bs|
  {
    if i < |bs| then bs[i].off else end
  }

  function Payload(c: Config, bs: seq<Block>, end: nat, i: nat): int
    requires i < |bs|
  {
    At(bs, end, i + 1) - bs[i].off - c.header
  }

  /** Block i holds at least its header, and some payload if it is used. */
  ghost predicate Holds(h: nat, bs: seq<Block>, end: nat, i: nat)
    requires i < |bs|
  {
    && bs[i].off + h <= At(bs, end, i + 1)
    && (bs[i].used ==> bs[i].off + h < At(bs, end, i + 1))
  }

  /** The blocks tile [0, end). */
  ghost predicate Tiled(h: nat, bs: seq<Block>, end: nat) {
    && |bs| > 0 && bs[0].off == 0
    && forall i | 0 <= i < |bs| :: Holds(h, bs, end, i)
  }

  ghost predicate Separated(bs: seq<Block>, i: nat)
    requires i + 1 < |bs|
  {
    bs[i].used || bs[i + 1].used
  }

  /** No two neighbours are free. */
  ghost predicate Coalesced(bs: seq<Block>) {
    forall i | 0 <= i < |bs| - 1 :: Separated(bs, i)
  }

  ghost predicate WellFormed(c: Config, bs: seq<Block>, end: nat) {
    c.Valid() && Tiled(c.header, bs, end) && Coalesced(bs)
  }

  /** Every header, and with it every payload, is aligned. */
  ghost predicate AllAligned(c: Config, bs: seq<Block>, end: nat) {
    && c.align > 0
    && c.header % c.align == 0 && end % c.align == 0
    && forall i | 0 <= i < |bs| :: bs[i].off % c.align == 0
  }

  lemma {:induction false} Ordered(h: nat, bs: seq<Block>, end: nat, i: nat, j: nat)
    requires Tiled(h, bs, end) && i < j <= |bs|
    ensures bs[i].off + h <= At(bs, end, i + 1) <= At(bs, end, j)
    decreases j
  {
    assert Holds(h, bs, end, i);
    if i + 1 < j {
      Ordered(h, bs, end, i, j - 1);
      assert Holds(h, bs, end, j - 1);
    }
  }

  /** Index of the header at offset `off`. */
  function IndexOf(bs: seq<Block>, off: nat): (k: nat)
    ensures k <= |bs|
    ensures k < |bs| ==> bs[k].off == off
    ensures k == |bs| ==> forall i | 0 <= i < |bs| :: bs[i].off != off
  {
    if bs == [] then 0
    else if bs[0].off == off then 0
    else 1 + IndexOf(bs[1..], off)
  }

  lemma IndexOfUnique(h: nat, bs: seq<Block>, end: nat, k: nat)
    requires Tiled(h, bs, end) && h > 0 && k < |bs|
    ensures IndexOf(bs, bs[k].off) == k
  {
    var j := IndexOf(bs, bs[k].off);
    if j < k { Ordered(h, bs, end, j, k); }
    if k < j {
      if j < |bs| { Ordered(h, bs, end, k, j); }
    }
  }

  /** Index of the lowest free block, or |bs|. */
  function LowestFree(bs: seq<Block>): (k: nat)
    ensures k <= |bs|
    ensures k < |bs| ==> !bs[k].used
    ensures forall i | 0 <= i < k :: bs[i].used
  {
    if bs == [] then 0
    else if !bs[0].used then 0
    else
      var k := LowestFree(bs[1..]);
      assert forall i | 0 < i <= k && i < |bs| :: bs[1..][i - 1] == bs[i];
      1 + k
  }

  lemma LowestFreeUnique(bs: seq<Block>, k: nat)
    requires k <= |bs| && (k < |bs| ==> !bs[k].used)
    requires forall i | 0 <= i < k :: bs[i].used
    ensures LowestFree(bs) == k
  {
  }

  /** Sum of the extents of the used blocks. */
  function UsedBytes(bs: seq<Block>, end: nat): int {
    if bs == [] then 0
    else (if bs[0].used then At(bs, end, 1) - bs[0].off else 0) + UsedBytes(bs[1..], end)
  }

  lemma {:induction false} UsedConcat(a: seq<Block>, b: seq<Block>, end: nat)
    requires |b| > 0
    ensures UsedBytes(a + b, end) == UsedBytes(a, b[0].off) + UsedBytes(b, end)
  {
    if a == [] {
      assert a + b == b;
    } else {
      assert (a + b)[1..] == a[1..] + b;
      UsedConcat(a[1..], b, end);
    }
  }

  lemma {:induction false} UsedBytesNonnegative(h: nat, bs: seq<Block>, end: nat, k: nat)
    requires Tiled(h, bs, end) && k <= |bs|
    ensures UsedBytes(bs[k..], end) >= 0
    decreases |bs| - k
  {
    if k < |bs| {
      UsedBytesNonnegative(h, bs, end, k + 1);
      assert Holds(h, bs, end, k);
      assert bs[k..][1..] == bs[k + 1..];
    }
  }

  /** UsedBytes around position k. */
  lemma UsedAround(bs: seq<Block>, end: nat, k: nat)
    requires k < |bs|
    ensures UsedBytes(bs, end)
         == UsedBytes(bs[..k], bs[k].off)
          + (if bs[k].used then At(bs, end, k + 1) - bs[k].off else 0)
          + UsedBytes(bs[k + 1..], end)
  {
    assert bs == bs[..k] + bs[k..];
    UsedConcat(bs[..k], bs[k..], end);
    assert bs[k..][1..] == bs[k + 1..];
  }

  // -- First fit --------------------------------------------------------------

  /** Plain first fit: the lowest block that is free and large enough, or |bs|. */
  function FirstFit(c: Config, bs: seq<Block>, end: nat, size: nat): (k: nat)
    ensures k <= |bs|
    ensures k < |bs| ==> !bs[k].used && Payload(c, bs, end, k) >= size
    ensures forall i | 0 <= i < k :: bs[i].used || Payload(c, bs, end, i) < size
  {
    if bs == [] then 0
    else if !bs[0].used && Payload(c, bs, end, 0) >= size then 0
    else
      var k := FirstFit(c, bs[1..], end, size);
      assert forall i | 0 < i <= k && i < |bs| :: bs[1..][i - 1] == bs[i] && At(bs, end, i + 1) == At(bs[1..], end, i);
      1 + k
  }

  lemma FirstFitUnique(c: Config, bs: seq<Block>, end: nat, size: nat, k: nat)
    requires k <= |bs|
    requires k < |bs| ==> !bs[k].used && Payload(c, bs, end, k) >= size
    requires forall i | 0 <= i < k :: bs[i].used || Payload(c, bs, end, i) < size
    ensures FirstFit(c, bs, end, size) == k
  {
  }

  // -- Effects of the calls on the block list ---------------------------------

  /** Takes block k for a payload of `size`, splitting off a free remainder when it can
      hold a header and a minimal payload. */
  function Occupy(c: Config, bs: seq<Block>, end: nat, k: nat, size: nat): seq<Block>
    requires c.Valid() && k < |bs|
  {
    if Payload(c, bs, end, k) >= size + c.header + MinAligned(c)
    then Cut(c, bs, k, size)
    else bs[k := Block(bs[k].off, true)]
  }

  /** Ends block k after `size` payload bytes and makes the rest a free block. */
  function Cut(c: Config, bs: seq<Block>, k: nat, size: nat): seq<Block>
    requires k < |bs|
  {
    bs[..k] + [Block(bs[k].off, true), Block(bs[k].off + c.header + size, false)] + bs[k + 1..]
  }

  function Remove(bs: seq<Block>, k: nat): seq<Block>
    requires k < |bs|
  {
    bs[..k] + bs[k + 1..]
  }

  /** plug_holes on the free block k. */
  function Plug(bs: seq<Block>, k: nat): (r: seq<Block>)
    requires k < |bs| && !bs[k].used
  {
    var forward := if k + 1 < |bs| && !bs[k + 1].used then Remove(bs, k + 1) else bs;
    if k > 0 && !forward[k - 1].used then Remove(forward, k) else forward
  }

  function Release(bs: seq<Block>, k: nat): seq<Block>
    requires k < |bs|
  {
    Plug(bs[k := Block(bs[k].off, false)], k)
  }

  function Shrink(c: Config, bs: seq<Block>, k: nat, size: nat): seq<Block>
    requires k < |bs|
  {
    Plug(Cut(c, bs, k, size), k + 1)
  }

  // -- Cut and Remove keep the list well formed and account for its bytes ------

  lemma CutTiles(c: Config, bs: seq<Block>, end: nat, k: nat, size: nat)
    requires Tiled(c.header, bs, end) && k < |bs|
    requires 0 < size && size + c.header <= Payload(c, bs, end, k)
    ensures Tiled(c.header, Cut(c, bs, k, size), end)
  {
    var r := Cut(c, bs, k, size);
    forall i | 0 <= i < |r|
      ensures Holds(c.header, r, end, i)
    {
      if i < k {
        assert Holds(c.header, bs, end, i);
        assert r[i] == bs[i] && At(r, end, i + 1) == At(bs, end, i + 1);
      } else if i == k + 1 {
        assert At(r, end, i + 1) == At(bs, end, k + 1);
      } else if i > k + 1 {
        assert Holds(c.header, bs, end, i - 1);
        assert r[i] == bs[i - 1] && At(r, end, i + 1) == At(bs, end, i);
      }
    }
  }

  lemma CutAligns(c: Config, bs: seq<Block>, end: nat, k: nat, size: nat)
    requires AllAligned(c, bs, end) && k < |bs| && size % c.align == 0
    ensures AllAligned(c, Cut(c, bs, k, size), end)
  {
    AlignedSum(bs[k].off, c.header, c.align);
    AlignedSum(bs[k].off + c.header, size, c.align);
  }

  /** Extent of block k if it is used. */
  function UsedExtent(bs: seq<Block>, end: nat, k: nat): int
    requires k < |bs|
  {
    if bs[k].used then At(bs, end, k + 1) - bs[k].off else 0
  }

  lemma CutBytes(c: Config, bs: seq<Block>, end: nat, k: nat, size: nat)
    requires k < |bs|
    ensures UsedBytes(Cut(c, bs, k, size), end) == UsedBytes(bs, end) + c.header + size - UsedExtent(bs, end, k)
  {
    var r := Cut(c, bs, k, size);
    UsedAround(bs, end, k);
    UsedAround(r, end, k);
    assert r[..k] == bs[..k];
    var tail := r[k + 1..];
    assert tail == [r[k + 1]] + bs[k + 1..];
    assert tail[1..] == bs[k + 1..];
  }

  /** Changing the flag of block k. */
  lemma MarkBytes(bs: seq<Block>, end: nat, k: nat, used: bool)
    requires k < |bs|
    ensures UsedBytes(bs[k := Block(bs[k].off, used)], end)
         == UsedBytes(bs, end) - UsedExtent(bs, end, k) + (if used then At(bs, end, k + 1) - bs[k].off else 0)
  {
    var r := bs[k := Block(bs[k].off, used)];
    UsedAround(bs, end, k);
    UsedAround(r, end, k);
    assert r[..k] == bs[..k] && r[k + 1..] == bs[k + 1..];
  }

  /** Absorbing the free block k into the free block before it. */
  lemma RemoveKeeps(h: nat, bs: seq<Block>, end: nat, k: nat)
    requires Tiled(h, bs, end) && 0 < k < |bs| && !bs[k].used && !bs[k - 1].used
    ensures Tiled(h, Remove(bs, k), end)
    ensures UsedBytes(Remove(bs, k), end) == UsedBytes(bs, end)
  {
    var r := Remove(bs, k);
    forall i | 0 <= i < |r|
      ensures Holds(h, r, end, i)
    {
      if i < k - 1 {
        assert Holds(h, bs, end, i);
        assert r[i] == bs[i] && At(r, end, i + 1) == At(bs, end, i + 1);
      } else if i == k - 1 {
        Ordered(h, bs, end, k - 1, k + 1);
        assert r[i] == bs[i] && At(r, end, i + 1) == At(bs, end, k + 1);
      } else {
        assert Holds(h, bs, end, i + 1);
        assert r[i] == bs[i + 1] && At(r, end, i + 1) == At(bs, end, i + 2);
      }
    }
    UsedAround(bs, end, k - 1);
    UsedAround(r, end, k - 1);
    assert r[..k - 1] == bs[..k - 1];
    assert r[k..] == bs[k + 1..];
    assert bs[k..][1..] == bs[k + 1..];
  }

  // -- Live allocations ---------------------------------------------------------

  /** The used blocks, each as (header offset, offset of the next header). */
  ghost function Live(bs: seq<Block>, end: nat): set<(nat, nat)> {
    set i | 0 <= i < |bs| && bs[i].used :: (bs[i].off, At(bs, end, i + 1))
  }

  lemma LiveIntro(bs: seq<Block>, end: nat, i: nat)
    requires i < |bs| && bs[i].used
    ensures (bs[i].off, At(bs, end, i + 1)) in Live(bs, end)
  {
  }

  lemma OffsetsDiffer(h: nat, bs: seq<Block>, end: nat, k: nat)
    requires Tiled(h, bs, end) && h > 0 && k < |bs|
    ensures forall i | 0 <= i < |bs| && i != k :: bs[i].off != bs[k].off
  {
    forall i | 0 <= i < |bs| && i != k
      ensures bs[i].off != bs[k].off
    {
      if i < k { Ordered(h, bs, end, i, k); } else { Ordered(h, bs, end, k, i); }
    }
  }

  lemma CutLive(c: Config, bs: seq<Block>, end: nat, k: nat, size: nat)
    requires Tiled(c.header, bs, end) && c.header > 0 && k < |bs|
    ensures Live(Cut(c, bs, k, size), end)
         == Live(bs, end) - {(bs[k].off, At(bs, end, k + 1))} + {(bs[k].off, bs[k].off + c.header + size)}
  {
    var r := Cut(c, bs, k, size);
    OffsetsDiffer(c.header, bs, end, k);
    CutShape(c, bs, end, k, size);
    LiveSwaps(bs, r, end, k);
  }

  lemma CutShape(c: Config, bs: seq<Block>, end: nat, k: nat, size: nat)
    requires k < |bs|
    ensures var r := Cut(c, bs, k, size);
      && Shifted(bs, r, end, k)
      && r[k] == Block(bs[k].off, true)
      && r[k + 1] == Block(bs[k].off + c.header + size, false)
  {
    var r := Cut(c, bs, k, size);
    forall i | 0 <= i < k
      ensures r[i] == bs[i] && At(r, end, i + 1) == At(bs, end, i + 1)
    {
      assert i + 1 < k ==> r[i + 1] == bs[i + 1];
    }
    forall i | k < i < |bs|
      ensures r[i + 1] == bs[i] && At(r, end, i + 2) == At(bs, end, i + 1)
    {
      assert r[i + 1] == bs[k + 1..][i - k - 1];
      if i + 1 < |bs| { assert r[i + 2] == bs[k + 1..][i - k]; }
    }
  }

  /** r has one block more than bs, inserted behind block k. */
  ghost predicate Shifted(bs: seq<Block>, r: seq<Block>, end: nat, k: nat) {
    && |r| == |bs| + 1
    && (forall i | 0 <= i < k && i < |bs| :: r[i] == bs[i] && At(r, end, i + 1) == At(bs, end, i + 1))
    && (forall i | k < i < |bs| :: r[i + 1] == bs[i] && At(r, end, i + 2) == At(bs, end, i + 1))
  }

  /** r is bs with block k replaced by the used block k and the free block k + 1. */
  lemma LiveSwaps(bs: seq<Block>, r: seq<Block>, end: nat, k: nat)
    requires k < |bs| && Shifted(bs, r, end, k)
    requires forall i | 0 <= i < |bs| && i != k :: bs[i].off != bs[k].off
    requires r[k] == Block(bs[k].off, true) && !r[k + 1].used
    ensures Live(r, end) == Live(bs, end) - {(bs[k].off, At(bs, end, k + 1))} + {(r[k].off, r[k + 1].off)}
  {
    LiveIntro(r, end, k);
    forall x | x in Live(bs, end) && x != (bs[k].off, At(bs, end, k + 1))
      ensures x in Live(r, end)
    {
      var i :| 0 <= i < |bs| && bs[i].used && x == (bs[i].off, At(bs, end, i + 1));
      LiveIntro(r, end, if i < k then i else i + 1);
    }
    forall x | x in Live(r, end) && x != (r[k].off, r[k + 1].off)
      ensures x in Live(bs, end) && x != (bs[k].off, At(bs, end, k + 1))
    {
      LiveUnshifted(bs, r, end, k, x);
    }
    hide Live;
  }

  lemma LiveUnshifted(bs: seq<Block>, r: seq<Block>, end: nat, k: nat, x: (nat, nat))
    requires k < |bs| && Shifted(bs, r, end, k)
    requires forall i | 0 <= i < |bs| && i != k :: bs[i].off != bs[k].off
    requires !r[k + 1].used && x in Live(r, end) && x != (r[k].off, r[k + 1].off)
    ensures x in Live(bs, end) && x.0 != bs[k].off
  {
    var i :| 0 <= i < |r| && r[i].used && x == (r[i].off, At(r, end, i + 1));
    var j := if i < k then i else i - 1;
    assert i != k && i != k + 1;
    assert r[i] == bs[j] && At(r, end, i + 1) == At(bs, end, j + 1);
    LiveIntro(bs, end, j);
  }

  lemma MarkLive(h: nat, bs: seq<Block>, end: nat, k: nat, used: bool)
    requires Tiled(h, bs, end) && h > 0 && k < |bs|
    ensures Live(bs[k := Block(bs[k].off, used)], end)
         == Live(bs, end) - {(bs[k].off, At(bs, end, k + 1))}
          + if used then {(bs[k].off, At(bs, end, k + 1))} else {}
  {
    var r := bs[k := Block(bs[k].off, used)];
    assert forall i | 0 <= i <= |bs| :: At(r, end, i) == At(bs, end, i);
    OffsetsDiffer(h, bs, end, k);
    forall i | 0 <= i < |bs| && bs[i].used && i != k
      ensures (bs[i].off, At(bs, end, i + 1)) in Live(r, end)
    {
      LiveIntro(r, end, i);
    }
    if used { LiveIntro(r, end, k); }
  }

  lemma RemoveLive(bs: seq<Block>, end: nat, k: nat)
    requires 0 < k < |bs| && !bs[k].used && !bs[k - 1].used
    ensures Live(Remove(bs, k), end) == Live(bs, end)
  {
    var r := Remove(bs, k);
    forall i | 0 <= i < |bs| && bs[i].used
      ensures (bs[i].off, At(bs, end, i + 1)) in Live(r, end)
    {
      LiveIntro(r, end, if i < k then i else i - 1);
    }
    forall x | x in Live(r, end)
      ensures x in Live(bs, end)
    {
      var i :| 0 <= i < |r| && r[i].used && x == (r[i].off, At(r, end, i + 1));
      LiveIntro(bs, end, if i < k then i else i + 1);
    }
  }

  /** plug_holes restores the absence of free neighbours and changes nothing else. */
  lemma PlugKeeps(h: nat, bs: seq<Block>, end: nat, k: nat)
    requires Tiled(h, bs, end) && k < |bs| && !bs[k].used
    requires forall i | 0 <= i < |bs| - 1 && i != k && i != k - 1 :: Separated(bs, i)
    ensures Tiled(h, Plug(bs, k), end) && Coalesced(Plug(bs, k))
    ensures UsedBytes(Plug(bs, k), end) == UsedBytes(bs, end)
    ensures Live(Plug(bs, k), end) == Live(bs, end)
  {
    var forward := if k + 1 < |bs| && !bs[k + 1].used then Remove(bs, k + 1) else bs;
    if k + 1 < |bs| && !bs[k + 1].used {
      RemoveKeeps(h, bs, end, k + 1);
      RemoveLive(bs, end, k + 1);
    }
    if k > 0 && !forward[k - 1].used {
      RemoveKeeps(h, forward, end, k);
      RemoveLive(forward, end, k);
    }
    PlugSeparates(bs, k);
  }

  lemma RemoveSeparates(bs: seq<Block>, k: nat, i: nat)
    requires 0 < k < |bs| && i + 1 < |bs| - 1
    ensures var r := Remove(bs, k);
      && (i + 1 < k ==> Separated(r, i) == Separated(bs, i))
      && (i + 1 == k ==> Separated(r, i) == (bs[k - 1].used || bs[k + 1].used))
      && (i + 1 > k ==> Separated(r, i) == Separated(bs, i + 1))
  {
  }

  lemma PlugSeparates(bs: seq<Block>, k: nat)
    requires k < |bs| && !bs[k].used
    requires forall i | 0 <= i < |bs| - 1 && i != k && i != k - 1 :: Separated(bs, i)
    ensures Coalesced(Plug(bs, k))
  {
    var forward := if k + 1 < |bs| && !bs[k + 1].used then Remove(bs, k + 1) else bs;
    forall i | 0 <= i < |forward| - 1 && i != k - 1
      ensures Separated(forward, i)
    {
      if k + 1 < |bs| && !bs[k + 1].used {
        RemoveSeparates(bs, k + 1, i);
        assert Separated(bs, if i < k then i else i + 1);
      } else if i != k {
        assert Separated(bs, i);
      }
    }
    assert !forward[k].used;
    var r := Plug(bs, k);
    forall i | 0 <= i < |r| - 1
      ensures Separated(r, i)
    {
      if k > 0 && !forward[k - 1].used {
        RemoveSeparates(forward, k, i);
        assert Separated(forward, if i < k - 1 then i else i + 1);
      } else if i != k - 1 {
        assert Separated(forward, i);
      }
    }
  }

  lemma PlugAligns(c: Config, bs: seq<Block>, end: nat, k: nat)
    requires AllAligned(c, bs, end) && k < |bs| && !bs[k].used
    ensures AllAligned(c, Plug(bs, k), end)
  {
  }

  // -- The calls keep the list well formed, account for bytes and touch one block --

  /** What taking the free block k for `size` bytes must achieve. */
  ghost predicate Occupies(h: nat, bs: seq<Block>, end: nat, k: nat, size: nat, r: seq<Block>)
    requires k < |bs|
  {
    && |r| > k && r[k] == Block(bs[k].off, true)
    && Tiled(h, r, end) && Coalesced(r)
    && UsedBytes(r, end) == UsedBytes(bs, end) + At(r, end, k + 1) - bs[k].off
    && Live(r, end) == Live(bs, end) + {(bs[k].off, At(r, end, k + 1))}
    && At(r, end, k + 1) - bs[k].off - h >= size
  }

  lemma CutOccupies(c: Config, bs: seq<Block>, end: nat, k: nat, size: nat)
    requires Tiled(c.header, bs, end) && Coalesced(bs) && c.header > 0 && k < |bs| && !bs[k].used
    requires 0 < size && size + c.header <= Payload(c, bs, end, k)
    ensures Occupies(c.header, bs, end, k, size, Cut(c, bs, k, size))
  {
    CutShape(c, bs, end, k, size);
    FreeIsNotLive(c.header, bs, end, k);
    CutTiles(c, bs, end, k, size);
    CutBytes(c, bs, end, k, size);
    CutLive(c, bs, end, k, size);
    CutCoalesced(c, bs, k, size);
    hide Cut, Live, UsedBytes;
  }

  lemma CutCoalesced(c: Config, bs: seq<Block>, k: nat, size: nat)
    requires Coalesced(bs) && k < |bs| && !bs[k].used
    ensures Coalesced(Cut(c, bs, k, size))
  {
    var r := Cut(c, bs, k, size);
    forall i | 0 <= i < |r| - 1
      ensures Separated(r, i)
    {
      if i < k {
        assert Separated(bs, i);
        assert r[i] == bs[i] && r[i + 1].used == (i + 1 == k || bs[i + 1].used);
      } else if i > k {
        assert Separated(bs, i - 1);
        assert r[i + 1] == bs[i] && (i > k + 1 ==> r[i] == bs[i - 1]);
      }
    }
  }

  lemma MarkOccupies(h: nat, bs: seq<Block>, end: nat, k: nat, size: nat)
    requires Tiled(h, bs, end) && Coalesced(bs) && h > 0 && k < |bs| && !bs[k].used
    requires 0 < size && bs[k].off + h + size <= At(bs, end, k + 1)
    ensures Occupies(h, bs, end, k, size, bs[k := Block(bs[k].off, true)])
  {
    FreeIsNotLive(h, bs, end, k);
    MarkBytes(bs, end, k, true);
    MarkLive(h, bs, end, k, true);
    MarkTiles(h, bs, end, k, true);
    var m := bs[k := Block(bs[k].off, true)];
    forall i | 0 <= i < |m| - 1
      ensures Separated(m, i)
    {
      MarkSeparates(bs, k, true, i);
    }
  }

  lemma MarkTiles(h: nat, bs: seq<Block>, end: nat, k: nat, used: bool)
    requires Tiled(h, bs, end) && k < |bs| && (used ==> bs[k].off + h < At(bs, end, k + 1))
    ensures Tiled(h, bs[k := Block(bs[k].off, used)], end)
  {
    var m := bs[k := Block(bs[k].off, used)];
    forall i | 0 <= i < |m|
      ensures Holds(h, m, end, i)
    {
      assert Holds(h, bs, end, i) && At(m, end, i + 1) == At(bs, end, i + 1);
    }
  }

  lemma MarkSeparates(bs: seq<Block>, k: nat, used: bool, i: nat)
    requires Coalesced(bs) && k < |bs| && i + 1 < |bs| && (used || (i != k && i + 1 != k))
    ensures Separated(bs[k := Block(bs[k].off, used)], i)
  {
    assert Separated(bs, i);
  }

  lemma OccupyKeeps(c: Config, bs: seq<Block>, end: nat, k: nat, size: nat)
    requires WellFormed(c, bs, end) && k < |bs| && !bs[k].used
    requires 0 < size <= Payload(c, bs, end, k)
    ensures Occupies(c.header, bs, end, k, size, Occupy(c, bs, end, k, size))
    ensures WellFormed(c, Occupy(c, bs, end, k, size), end)
  {
    if Payload(c, bs, end, k) >= size + c.header + MinAligned(c) {
      CutOccupies(c, bs, end, k, size);
    } else {
      MarkOccupies(c.header, bs, end, k, size);
    }
  }

  lemma FreeIsNotLive(h: nat, bs: seq<Block>, end: nat, k: nat)
    requires Tiled(h, bs, end) && h > 0 && k < |bs| && !bs[k].used
    ensures (bs[k].off, At(bs, end, k + 1)) !in Live(bs, end)
  {
    OffsetsDiffer(h, bs, end, k);
  }

  lemma ReleaseKeeps(h: nat, bs: seq<Block>, end: nat, k: nat)
    requires Tiled(h, bs, end) && Coalesced(bs) && h > 0 && k < |bs| && bs[k].used
    ensures var r := Release(bs, k);
      && Tiled(h, r, end) && Coalesced(r)
      && UsedBytes(r, end) == UsedBytes(bs, end) - (At(bs, end, k + 1) - bs[k].off)
      && Live(r, end) == Live(bs, end) - {(bs[k].off, At(bs, end, k + 1))}
  {
    MarkBytes(bs, end, k, false);
    MarkLive(h, bs, end, k, false);
    MarkTiles(h, bs, end, k, false);
    var m := bs[k := Block(bs[k].off, false)];
    forall i | 0 <= i < |m| - 1 && i != k && i != k - 1
      ensures Separated(m, i)
    {
      MarkSeparates(bs, k, false, i);
    }
    PlugKeeps(h, m, end, k);
  }

  lemma ShrinkKeeps(c: Config, bs: seq<Block>, end: nat, k: nat, size: nat)
    requires Tiled(c.header, bs, end) && Coalesced(bs) && c.header > 0 && k < |bs| && bs[k].used
    requires 0 < size && size + c.header <= Payload(c, bs, end, k)
    ensures var r := Shrink(c, bs, k, size);
      && |r| > k && r[k] == Block(bs[k].off, true) && At(r, end, k + 1) == bs[k].off + c.header + size
      && Tiled(c.header, r, end) && Coalesced(r)
      && UsedBytes(r, end) == UsedBytes(bs, end) - (Payload(c, bs, end, k) - size)
      && Live(r, end) == Live(bs, end) - {(bs[k].off, At(bs, end, k + 1))} + {(bs[k].off, bs[k].off + c.header + size)}
  {
    CutTiles(c, bs, end, k, size);
    CutBytes(c, bs, end, k, size);
    CutLive(c, bs, end, k, size);
    var r := Cut(c, bs, k, size);
    forall i | 0 <= i < |r| - 1 && i != k && i != k + 1
      ensures Separated(r, i)
    {
      assert Separated(bs, if i < k then i else i - 1);
      assert i < k ==> r[i] == bs[i] && r[i + 1] == Block(bs[i + 1].off, i + 1 == k || bs[i + 1].used);
      assert i > k + 1 ==> r[i] == bs[i - 1] && r[i + 1] == bs[i];
    }
    PlugKeeps(c.header, Cut(c, bs, k, size), end, k + 1);
  }
}
