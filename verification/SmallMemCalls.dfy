/** rt_smem_alloc, rt_smem_free and rt_smem_realloc as functions on the block list, and
    what every sequence of calls keeps. Pointers are heap offsets; None is RT_NULL. */
module SmallMemCalls {
  import opened Align
  import opened Options
  import opened SmallMemModel

  /** The heap region and its end header fit the address space. */
  ghost predicate Region(c: Config, end: nat) {
    c.Valid() && c.header <= end <= WORD - c.header
  }

  function Alloc(c: Config, bs: seq<Block>, end: nat, n: nat): (seq<Block>, Option<nat>)
    requires Region(c, end)
  {
    if n == 0 || Request(c, n) > end - c.header then (bs, None)
    else
      var k := FirstFit(c, bs, end, Request(c, n));
      if k == |bs| then (bs, None)
      else (Occupy(c, bs, end, k, Request(c, n)), Some(bs[k].off + c.header))
  }

  /** p is the payload address of a used block. */
  predicate IsLive(c: Config, bs: seq<Block>, p: nat) {
    p >= c.header && var k := IndexOf(bs, p - c.header); k < |bs| && bs[k].used
  }

  /** What the assertions of rt_smem_free and rt_smem_realloc demand of their argument. */
  predicate Freeable(c: Config, bs: seq<Block>, p: Option<nat>) {
    p.Some? ==> IsLive(c, bs, p.value)
  }

  function Free(c: Config, bs: seq<Block>, p: Option<nat>): seq<Block>
    requires Freeable(c, bs, p)
  {
    if p.None? then bs else Release(bs, IndexOf(bs, p.value - c.header))
  }

  /** The live block at p reaches to this offset. */
  function BlockEnd(c: Config, bs: seq<Block>, end: nat, p: nat): nat
    requires IsLive(c, bs, p)
  {
    At(bs, end, IndexOf(bs, p - c.header) + 1)
  }

  lemma AllocCorrect(c: Config, bs: seq<Block>, end: nat, n: nat)
    requires Region(c, end) && WellFormed(c, bs, end)
    ensures var (r, p) := Alloc(c, bs, end, n);
      && WellFormed(c, r, end)
      && (p.None? ==> r == bs)
      && (p.Some? ==>
            && IsLive(c, r, p.value) && !IsLive(c, bs, p.value)
            && BlockEnd(c, r, end, p.value) - p.value >= Request(c, n)
            && Live(r, end) == Live(bs, end) + {(p.value - c.header, BlockEnd(c, r, end, p.value))}
            && UsedBytes(r, end) == UsedBytes(bs, end) + BlockEnd(c, r, end, p.value) - (p.value - c.header))
  {
    var (r, p) := Alloc(c, bs, end, n);
    if p.Some? {
      hide Occupy;
      var k := FirstFit(c, bs, end, Request(c, n));
      OccupyKeeps(c, bs, end, k, Request(c, n));
      TakenIsLive(c, bs, end, k, r);
    }
  }

  lemma TakenIsLive(c: Config, bs: seq<Block>, end: nat, k: nat, r: seq<Block>)
    requires WellFormed(c, bs, end) && WellFormed(c, r, end)
    requires k < |bs| && !bs[k].used && k < |r| && r[k] == Block(bs[k].off, true)
    ensures var p := bs[k].off + c.header;
      IsLive(c, r, p) && !IsLive(c, bs, p) && BlockEnd(c, r, end, p) == At(r, end, k + 1)
  {
    IndexOfUnique(c.header, r, end, k);
    IndexOfUnique(c.header, bs, end, k);
  }

  /** NULL exactly for a request of zero, or when no free block of the whole heap is large enough. */
  lemma AllocNullIff(c: Config, bs: seq<Block>, end: nat, n: nat)
    requires Region(c, end) && WellFormed(c, bs, end)
    ensures Alloc(c, bs, end, n).1.None? <==>
            n == 0 || forall i | 0 <= i < |bs| :: bs[i].used || Payload(c, bs, end, i) < Request(c, n)
  {
    if Request(c, n) > end - c.header {
      forall i | 0 <= i < |bs|
        ensures Payload(c, bs, end, i) <= end - c.header
      {
        Ordered(c.header, bs, end, i, |bs|);
      }
    }
  }

  /** Block k is the lowest free one with room for `want` bytes. */
  ghost predicate LowestFit(c: Config, bs: seq<Block>, end: nat, want: nat, k: nat) {
    && k < |bs| && !bs[k].used && Payload(c, bs, end, k) >= want
    && forall i | 0 <= i < k :: bs[i].used || Payload(c, bs, end, i) < want
  }

  /** The live block at p fills the room that block k of bs had, or, if the remainder can hold
      a header and a minimal payload, has exactly `want` bytes in front of a free block. */
  ghost predicate Splits(c: Config, bs: seq<Block>, end: nat, want: nat, k: nat, r: seq<Block>, p: nat)
    requires c.Valid() && k < |bs|
  {
    && IsLive(c, r, p)
    && if Payload(c, bs, end, k) >= want + c.header + MinAligned(c)
       then BlockEnd(c, r, end, p) == p + want
            && exists j :: 0 <= j < |r| && r[j] == Block(p + want, false) && At(r, end, j + 1) == At(bs, end, k + 1)
       else BlockEnd(c, r, end, p) == At(bs, end, k + 1)
  }

  lemma OccupySplits(c: Config, bs: seq<Block>, end: nat, k: nat, size: nat)
    requires WellFormed(c, bs, end) && k < |bs| && !bs[k].used && Payload(c, bs, end, k) >= size >= MinAligned(c)
    ensures Splits(c, bs, end, size, k, Occupy(c, bs, end, k, size), bs[k].off + c.header)
  {
    var r := Occupy(c, bs, end, k, size);
    OccupyKeeps(c, bs, end, k, size);
    TakenIsLive(c, bs, end, k, r);
    hide Tiled, Coalesced, Live, UsedBytes, MinAligned, IsLive, BlockEnd;
    if Payload(c, bs, end, k) >= size + c.header + MinAligned(c) {
      assert r[k + 1] == Block(bs[k].off + c.header + size, false);
      assert At(r, end, k + 2) == At(bs, end, k + 1);
    }
  }

  /** A successful allocation returns the lowest block that fits, split exactly when the rest
      is large enough. */
  lemma AllocExact(c: Config, bs: seq<Block>, end: nat, n: nat) returns (k: nat)
    requires Region(c, end) && WellFormed(c, bs, end) && Alloc(c, bs, end, n).1.Some?
    ensures LowestFit(c, bs, end, Request(c, n), k)
    ensures var (r, p) := Alloc(c, bs, end, n);
      p == Some(bs[k].off + c.header) && Splits(c, bs, end, Request(c, n), k, r, p.value)
  {
    k := FirstFit(c, bs, end, Request(c, n));
    OccupySplits(c, bs, end, k, Request(c, n));
    hide Occupy, WellFormed, Request, MinAligned, Splits;
  }

  /** No free block has room for `want` bytes. */
  ghost predicate NoneFits(c: Config, bs: seq<Block>, end: nat, want: nat) {
    forall i | 0 <= i < |bs| :: bs[i].used || Payload(c, bs, end, i) < want
  }

  /** Both answers of an allocation of at least one byte. */
  lemma AllocIff(c: Config, bs: seq<Block>, end: nat, n: nat) returns (k: nat)
    requires Region(c, end) && WellFormed(c, bs, end) && n > 0
    ensures var (r, p) := Alloc(c, bs, end, n);
      if p.None? then r == bs && NoneFits(c, bs, end, Request(c, n))
      else
        && LowestFit(c, bs, end, Request(c, n), k) && p == Some(bs[k].off + c.header)
        && Splits(c, bs, end, Request(c, n), k, r, p.value)
  {
    k := 0;
    if Alloc(c, bs, end, n).1.None? {
      AllocNullIff(c, bs, end, n);
      hide Request, Splits, LowestFit;
    } else {
      k := AllocExact(c, bs, end, n);
      hide *;
    }
  }

  /** A successful allocation is as large as requested exactly when RT_ALIGN did not wrap. */
  lemma AllocLargeEnoughIff(c: Config, bs: seq<Block>, end: nat, n: nat)
    requires Region(c, end) && WellFormed(c, bs, end) && n < WORD
    requires Alloc(c, bs, end, n).1.Some?
    ensures var (r, p) := Alloc(c, bs, end, n);
      IsLive(c, r, p.value) && (n <= BlockEnd(c, r, end, p.value) - p.value <==> n <= WORD - c.align)
  {
    AllocCorrect(c, bs, end, n);
    var (r, p) := Alloc(c, bs, end, n);
    if n <= WORD - c.align {
      RtAlignIsCeiling(n, c.align);
    } else {
      Ordered(c.header, r, end, IndexOf(r, p.value - c.header), |r|);
    }
  }

  /** Every request beyond that point gets a block from an empty heap of any size. */
  lemma WrappedAlloc(c: Config, end: nat, n: nat)
    requires Region(c, end) && end >= c.header + MinAligned(c) && WORD - c.align < n < WORD
    ensures WellFormed(c, [Block(0, false)], end) && Alloc(c, [Block(0, false)], end, n).1 == Some(c.header)
  {
    RtAlignWraps(n, c.align);
    FirstFitUnique(c, [Block(0, false)], end, Request(c, n), 0);
  }

  lemma FreeCorrect(c: Config, bs: seq<Block>, end: nat, p: nat)
    requires WellFormed(c, bs, end) && IsLive(c, bs, p)
    ensures var r := Free(c, bs, Some(p));
      && WellFormed(c, r, end)
      && Live(r, end) == Live(bs, end) - {(p - c.header, BlockEnd(c, bs, end, p))}
      && (p - c.header, BlockEnd(c, bs, end, p)) in Live(bs, end)
      && UsedBytes(r, end) == UsedBytes(bs, end) - (BlockEnd(c, bs, end, p) - (p - c.header))
  {
    var k := IndexOf(bs, p - c.header);
    ReleaseKeeps(c.header, bs, end, k);
    LiveIntro(bs, end, k);
  }

  /** Freeing the block just allocated restores the exact block list. */
  lemma AllocFreeRoundTrip(c: Config, bs: seq<Block>, end: nat, n: nat)
    requires Region(c, end) && WellFormed(c, bs, end) && Alloc(c, bs, end, n).1.Some?
    ensures var (r, p) := Alloc(c, bs, end, n); Freeable(c, r, p) && Free(c, r, p) == bs
  {
    var k := FirstFit(c, bs, end, Request(c, n));
    var r := Occupy(c, bs, end, k, Request(c, n));
    OccupyKeeps(c, bs, end, k, Request(c, n));
    TakenIsLive(c, bs, end, k, r);
    IndexOfUnique(c.header, r, end, k);
    OccupyRelease(c, bs, end, k, Request(c, n));
  }

  lemma OccupyRelease(c: Config, bs: seq<Block>, end: nat, k: nat, size: nat)
    requires c.Valid() && Coalesced(bs) && k < |bs| && !bs[k].used
    ensures var r := Occupy(c, bs, end, k, size); k < |r| && Release(r, k) == bs
  {
    var r := Occupy(c, bs, end, k, size);
    var m := r[k := Block(r[k].off, false)];
    assert k > 0 ==> Separated(bs, k - 1);
    assert k + 1 < |bs| ==> Separated(bs, k);
    assert k > 0 ==> m[k - 1] == bs[k - 1] && bs[k - 1].used;
    if r == bs[k := Block(bs[k].off, true)] {
      assert m == bs;
    } else {
      assert m[k + 1] == Block(bs[k].off + c.header + size, false);
      assert Remove(m, k + 1) == bs;
    }
  }

  /** Payloads of different live blocks never overlap. */
  lemma LiveDisjoint(h: nat, bs: seq<Block>, end: nat, x: (nat, nat), y: (nat, nat))
    requires Tiled(h, bs, end) && x in Live(bs, end) && y in Live(bs, end) && x != y
    ensures x.1 <= y.0 || y.1 <= x.0
    ensures x.0 + h < x.1 <= end
  {
    var i :| 0 <= i < |bs| && bs[i].used && x == (bs[i].off, At(bs, end, i + 1));
    var j :| 0 <= j < |bs| && bs[j].used && y == (bs[j].off, At(bs, end, j + 1));
    Ordered(h, bs, end, i, |bs|);
    assert Holds(h, bs, end, i);
    if i < j { Ordered(h, bs, end, i, j); }
    if j < i { Ordered(h, bs, end, j, i); }
  }

  /** Once everything is freed the heap is the single initial free block again. */
  lemma FullCoalescing(c: Config, bs: seq<Block>, end: nat)
    requires WellFormed(c, bs, end)
    ensures Live(bs, end) == {} <==> bs == [Block(0, false)]
    ensures Live(bs, end) == {} ==> UsedBytes(bs, end) == 0
  {
    assert |bs| > 1 ==> Separated(bs, 0);
    if Live(bs, end) == {} {
      forall i | 0 <= i < |bs| ensures !bs[i].used {
        if bs[i].used { LiveIntro(bs, end, i); }
      }
      assert bs == [Block(0, false)];
    }
  }

  // -- realloc ------------------------------------------------------------------

  function Realloc(c: Config, bs: seq<Block>, end: nat, p: Option<nat>, n: nat): (seq<Block>, Option<nat>)
    requires Region(c, end) && WellFormed(c, bs, end) && Freeable(c, bs, p)
  {
    var size := RtAlign(n, c.align);
    if size > end - c.header then (bs, None)
    else if size == 0 then (Free(c, bs, p), None)
    else if p.None? then Alloc(c, bs, end, size)
    else Resize(c, bs, end, p.value, size)
  }

  function Resize(c: Config, bs: seq<Block>, end: nat, p: nat, size: nat): (seq<Block>, Option<nat>)
    requires Region(c, end) && WellFormed(c, bs, end) && IsLive(c, bs, p)
  {
    var k := IndexOf(bs, p - c.header);
    var payload := Payload(c, bs, end, k);
    if payload == size then (bs, Some(p))
    else if size + c.header + c.minSize < payload then (Shrink(c, bs, k, size), Some(p))
    else
      var (moved, q) := Alloc(c, bs, end, size);
      OthersStayLive(c, bs, end, size, p);
      if q.None? then (bs, None) else (Free(c, moved, Some(p)), q)
  }

  /** The block list while realloc uses most memory: a block that moves is there twice. */
  function Fullest(c: Config, bs: seq<Block>, end: nat, p: Option<nat>, n: nat): seq<Block>
    requires Region(c, end) && WellFormed(c, bs, end) && Freeable(c, bs, p)
  {
    var size := RtAlign(n, c.align);
    if size > end - c.header || size == 0 then bs
    else if p.None? then Alloc(c, bs, end, size).0
    else FullestResize(c, bs, end, p.value, size)
  }

  function FullestResize(c: Config, bs: seq<Block>, end: nat, p: nat, size: nat): seq<Block>
    requires Region(c, end) && WellFormed(c, bs, end) && IsLive(c, bs, p)
  {
    var payload := Payload(c, bs, end, IndexOf(bs, p - c.header));
    if payload == size || size + c.header + c.minSize < payload then bs else Alloc(c, bs, end, size).0
  }

  /** Allocating leaves every live block where it is. */
  lemma OthersStayLive(c: Config, bs: seq<Block>, end: nat, n: nat, p: nat)
    requires Region(c, end) && WellFormed(c, bs, end) && IsLive(c, bs, p)
    ensures var (r, q) := Alloc(c, bs, end, n);
      && IsLive(c, r, p) && BlockEnd(c, r, end, p) == BlockEnd(c, bs, end, p)
      && (q.Some? ==> q.value != p)
  {
    AllocCorrect(c, bs, end, n);
    var (r, q) := Alloc(c, bs, end, n);
    LiveIntro(bs, end, IndexOf(bs, p - c.header));
    var x := (p - c.header, BlockEnd(c, bs, end, p));
    assert x in Live(r, end);
    var i :| 0 <= i < |r| && r[i].used && x == (r[i].off, At(r, end, i + 1));
    IndexOfUnique(c.header, r, end, i);
  }

  /** The result is live and large enough, every other live block stays as it is, and
      with a NULL result for a nonzero aligned size nothing changed at all. */
  lemma ReallocCorrect(c: Config, bs: seq<Block>, end: nat, p: Option<nat>, n: nat)
    requires Region(c, end) && WellFormed(c, bs, end) && Freeable(c, bs, p)
    ensures var (r, q) := Realloc(c, bs, end, p, n);
      var old' := if p.Some? then {(p.value - c.header, BlockEnd(c, bs, end, p.value))} else {};
      && WellFormed(c, r, end)
      && (q.Some? ==>
            && IsLive(c, r, q.value)
            && BlockEnd(c, r, end, q.value) - q.value >= RtAlign(n, c.align) > 0
            && Live(r, end) == Live(bs, end) - old' + {(q.value - c.header, BlockEnd(c, r, end, q.value))})
      && (q.None? && RtAlign(n, c.align) > 0 ==> r == bs)
      && (q.None? && RtAlign(n, c.align) == 0 ==> Live(r, end) == Live(bs, end) - old')
  {
    hide Alloc, Release, Shrink, UsedBytes, Request, RtAlign, Tiled, Coalesced;
    var size := RtAlign(n, c.align);
    if size > end - c.header {
    } else if size == 0 {
      if p.Some? { FreeCorrect(c, bs, end, p.value); }
    } else if p.None? {
      AllocCorrect(c, bs, end, size);
      RequestOfAligned(c, n);
    } else {
      var k := IndexOf(bs, p.value - c.header);
      var payload := Payload(c, bs, end, k);
      if payload == size {
        LiveIntro(bs, end, k);
      } else if size + c.header + c.minSize < payload {
        ReallocInPlace(c, bs, end, k, size);
      } else {
        ReallocMoves(c, bs, end, p.value, n);
      }
    }
  }

  /** An aligned size is searched for as it is or raised. */
  lemma RequestOfAligned(c: Config, n: nat)
    requires c.Valid() && RtAlign(n, c.align) <= WORD - c.align
    ensures Request(c, RtAlign(n, c.align)) >= RtAlign(n, c.align)
  {
    RtAlignIsCeiling(RtAlign(n, c.align), c.align);
  }

  lemma ReallocInPlace(c: Config, bs: seq<Block>, end: nat, k: nat, size: nat)
    requires WellFormed(c, bs, end) && k < |bs| && bs[k].used
    requires 0 < size && size + c.header <= Payload(c, bs, end, k)
    ensures var (r, p) := (Shrink(c, bs, k, size), bs[k].off + c.header);
      && WellFormed(c, r, end) && IsLive(c, r, p) && BlockEnd(c, r, end, p) == p + size
      && Live(r, end) == Live(bs, end) - {(bs[k].off, At(bs, end, k + 1))} + {(bs[k].off, p + size)}
  {
    hide Shrink, Live, UsedBytes, Tiled, Coalesced, IndexOf;
    ShrinkKeeps(c, bs, end, k, size);
    StillLive(c, end, bs[k].off, k, Shrink(c, bs, k, size));
  }

  lemma StillLive(c: Config, end: nat, off: nat, k: nat, r: seq<Block>)
    requires WellFormed(c, r, end) && k < |r| && r[k] == Block(off, true)
    ensures IsLive(c, r, off + c.header) && BlockEnd(c, r, end, off + c.header) == At(r, end, k + 1)
  {
    IndexOfUnique(c.header, r, end, k);
  }

  lemma ReallocMoves(c: Config, bs: seq<Block>, end: nat, p: nat, n: nat)
    requires Region(c, end) && WellFormed(c, bs, end) && IsLive(c, bs, p)
    requires 0 < RtAlign(n, c.align) <= end - c.header
    ensures var (moved, q) := Alloc(c, bs, end, RtAlign(n, c.align));
      q.Some? ==>
        && IsLive(c, moved, p)
        && var r := Free(c, moved, Some(p));
        && WellFormed(c, r, end)
        && IsLive(c, r, q.value)
        && BlockEnd(c, r, end, q.value) - q.value >= RtAlign(n, c.align)
        && Live(r, end) == Live(bs, end) - {(p - c.header, BlockEnd(c, bs, end, p))}
                         + {(q.value - c.header, BlockEnd(c, r, end, q.value))}
  {
    hide Alloc, Free, UsedBytes, Request;
    var size := RtAlign(n, c.align);
    var (moved, q) := Alloc(c, bs, end, size);
    AllocCorrect(c, bs, end, size);
    OthersStayLive(c, bs, end, size, p);
    RequestOfAligned(c, n);
    if q.Some? {
      FreeCorrect(c, moved, end, p);
      var r := Free(c, moved, Some(p));
      var x := (q.value - c.header, BlockEnd(c, moved, end, q.value));
      assert x in Live(r, end);
      var i :| 0 <= i < |r| && r[i].used && x == (r[i].off, At(r, end, i + 1));
      IndexOfUnique(c.header, r, end, i);
    }
  }

  /** The payload that realloc looks for when a block moves. */
  function Wanted(c: Config, size: nat): nat
    requires c.Valid()
  {
    if size < MinAligned(c) then MinAligned(c) else size
  }

  /** Case by case the answer of realloc for a live block at p: the block as it is, the block
      cut in place, NULL for want of a free block with room, or a move to the lowest one; the
      peak of the used bytes in a move has both blocks. */
  ghost predicate Answers(c: Config, bs: seq<Block>, end: nat, p: nat, size: nat, k: nat,
                          r: seq<Block>, q: Option<nat>, peak: int)
    requires c.Valid() && IsLive(c, bs, p)
  {
    var payload := BlockEnd(c, bs, end, p) - p;
    if payload == size then (r, q) == (bs, Some(p))
    else if size + c.header + c.minSize < payload then
      q == Some(p) && IsLive(c, r, p) && BlockEnd(c, r, end, p) == p + size
    else if q.None? then
      r == bs && NoneFits(c, bs, end, Wanted(c, size))
    else Moves(c, bs, end, p, Wanted(c, size), k, r, q.value, peak)
  }

  ghost predicate Moves(c: Config, bs: seq<Block>, end: nat, p: nat, want: nat, k: nat,
                        r: seq<Block>, q: nat, peak: int)
    requires c.Valid() && IsLive(c, bs, p)
  {
    && LowestFit(c, bs, end, want, k) && q == bs[k].off + c.header
    && IsLive(c, r, q) && q != p && !IsLive(c, r, p)
    && BlockEnd(c, r, end, q) - q ==
       (if Payload(c, bs, end, k) >= want + c.header + MinAligned(c) then want else Payload(c, bs, end, k))
    && peak == UsedBytes(r, end) + BlockEnd(c, bs, end, p) - (p - c.header)
  }

  /** Which of its answers realloc gives for a size that is neither zero nor beyond the heap.
      It is NULL exactly when the block would have to move and no free block has room. */
  lemma ReallocIff(c: Config, bs: seq<Block>, end: nat, p: nat, n: nat) returns (k: nat)
    requires Region(c, end) && WellFormed(c, bs, end) && IsLive(c, bs, p)
    requires 0 < RtAlign(n, c.align) <= end - c.header
    ensures var (r, q) := Realloc(c, bs, end, Some(p), n);
      Answers(c, bs, end, p, RtAlign(n, c.align), k, r, q, UsedBytes(Fullest(c, bs, end, Some(p), n), end))
  {
    var size, i := RtAlign(n, c.align), IndexOf(bs, p - c.header);
    RtAlignTwice(n, c.align);
    assert Request(c, size) == Wanted(c, size);
    hide RtAlign, MinAligned, Request, Wanted;
    k := ResizeIff(c, bs, end, p, size);
    hide Answers, Resize, FullestResize, WellFormed, IsLive;
  }

  /** With no block given realloc answers as a fresh request would: NULL exactly when no free
      block has room, otherwise the lowest one that has. */
  lemma ReallocFresh(c: Config, bs: seq<Block>, end: nat, n: nat) returns (k: nat)
    requires Region(c, end) && WellFormed(c, bs, end) && 0 < RtAlign(n, c.align) <= end - c.header
    ensures var (r, q) := Realloc(c, bs, end, None, n);
      if q.None? then r == bs && NoneFits(c, bs, end, Wanted(c, RtAlign(n, c.align)))
      else
        && LowestFit(c, bs, end, Wanted(c, RtAlign(n, c.align)), k) && q == Some(bs[k].off + c.header)
        && Splits(c, bs, end, Wanted(c, RtAlign(n, c.align)), k, r, q.value)
  {
    var size := RtAlign(n, c.align);
    RtAlignTwice(n, c.align);
    assert Request(c, size) == Wanted(c, size);
    hide RtAlign, MinAligned, Request, Wanted, Alloc, WellFormed, LowestFit, Splits, NoneFits;
    k := AllocIff(c, bs, end, size);
  }

  lemma ResizeIff(c: Config, bs: seq<Block>, end: nat, p: nat, size: nat) returns (k: nat)
    requires Region(c, end) && WellFormed(c, bs, end) && IsLive(c, bs, p)
    requires 0 < size && Request(c, size) == Wanted(c, size)
    ensures var (r, q) := Resize(c, bs, end, p, size);
      Answers(c, bs, end, p, size, k, r, q, UsedBytes(FullestResize(c, bs, end, p, size), end))
  {
    var i := IndexOf(bs, p - c.header);
    k := 0;
    hide RtAlign, MinAligned, Request, Wanted, UsedBytes, Moves, WellFormed, Alloc, Free, Shrink, Live, NoneFits;
    if Payload(c, bs, end, i) == size {
    } else if size + c.header + c.minSize < Payload(c, bs, end, i) {
      ResizeInPlace(c, bs, end, p, size);
    } else {
      k := ResizeMoves(c, bs, end, p, size);
    }
  }

  lemma ResizeInPlace(c: Config, bs: seq<Block>, end: nat, p: nat, size: nat)
    requires Region(c, end) && WellFormed(c, bs, end) && IsLive(c, bs, p)
    requires 0 < size && BlockEnd(c, bs, end, p) - p != size && size + c.header + c.minSize < BlockEnd(c, bs, end, p) - p
    ensures var (r, q) := Resize(c, bs, end, p, size);
      q == Some(p) && IsLive(c, r, p) && BlockEnd(c, r, end, p) == p + size
  {
    hide Shrink, Live, WellFormed, Alloc, Free;
    ReallocInPlace(c, bs, end, IndexOf(bs, p - c.header), size);
  }

  lemma ResizeMoves(c: Config, bs: seq<Block>, end: nat, p: nat, size: nat) returns (k: nat)
    requires Region(c, end) && WellFormed(c, bs, end) && IsLive(c, bs, p)
    requires 0 < size && Request(c, size) == Wanted(c, size)
    requires BlockEnd(c, bs, end, p) - p != size && !(size + c.header + c.minSize < BlockEnd(c, bs, end, p) - p)
    ensures var (r, q) := Resize(c, bs, end, p, size);
      if q.None? then r == bs && NoneFits(c, bs, end, Wanted(c, size))
      else Moves(c, bs, end, p, Wanted(c, size), k, r, q.value, UsedBytes(FullestResize(c, bs, end, p, size), end))
  {
    k := 0;
    hide RtAlign, MinAligned, Request, Wanted, UsedBytes, Moves, WellFormed, Alloc, Free, Shrink, Live;
    AllocNullIff(c, bs, end, size);
    if Alloc(c, bs, end, size).1.Some? { k := MoveExact(c, bs, end, p, size); }
    hide IsLive, Splits;
  }

  lemma MoveExact(c: Config, bs: seq<Block>, end: nat, p: nat, size: nat) returns (k: nat)
    requires Region(c, end) && WellFormed(c, bs, end) && IsLive(c, bs, p) && Alloc(c, bs, end, size).1.Some?
    ensures var (moved, q) := Alloc(c, bs, end, size);
      IsLive(c, moved, p) &&
      Moves(c, bs, end, p, Request(c, size), k, Free(c, moved, Some(p)), q.value, UsedBytes(moved, end))
  {
    k := AllocExact(c, bs, end, size);
    hide Alloc, Free, Request, MinAligned;
    var (moved, q) := Alloc(c, bs, end, size);
    AllocCorrect(c, bs, end, size);
    OthersStayLive(c, bs, end, size, p);
    FreeCorrect(c, moved, end, p);
    var r := Free(c, moved, Some(p));
    StaysLive(c, moved, r, end, q.value);
    NoLongerLive(c, moved, r, end, p);
    hide Live, UsedBytes, WellFormed, IsLive, LowestFit;
  }

  /** A block that is live before and after has kept its end. */
  lemma StaysLive(c: Config, bs: seq<Block>, r: seq<Block>, end: nat, q: nat)
    requires WellFormed(c, bs, end) && WellFormed(c, r, end) && IsLive(c, bs, q)
    requires (q - c.header, BlockEnd(c, bs, end, q)) in Live(r, end)
    ensures IsLive(c, r, q) && BlockEnd(c, r, end, q) == BlockEnd(c, bs, end, q)
  {
    var x := (q - c.header, BlockEnd(c, bs, end, q));
    var i :| 0 <= i < |r| && r[i].used && x == (r[i].off, At(r, end, i + 1));
    IndexOfUnique(c.header, r, end, i);
  }

  lemma NoLongerLive(c: Config, bs: seq<Block>, r: seq<Block>, end: nat, p: nat)
    requires WellFormed(c, bs, end) && WellFormed(c, r, end) && IsLive(c, bs, p)
    requires Live(r, end) == Live(bs, end) - {(p - c.header, BlockEnd(c, bs, end, p))}
    ensures !IsLive(c, r, p)
  {
    if IsLive(c, r, p) {
      var k := IndexOf(r, p - c.header);
      LiveIntro(r, end, k);
      LiveAtOnce(c, bs, end, p, (r[k].off, At(r, end, k + 1)));
    }
  }

  /** A NULL result for a nonzero size leaves the heap unchanged exactly when RT_ALIGN did
      not wrap: past that point realloc frees the block. */
  lemma ReallocNullKeepsHeapIff(c: Config, bs: seq<Block>, end: nat, p: nat, n: nat)
    requires Region(c, end) && WellFormed(c, bs, end) && IsLive(c, bs, p)
    ensures 0 < n < WORD && Realloc(c, bs, end, Some(p), n).1.None? ==>
      (Realloc(c, bs, end, Some(p), n).0 == bs <==> n <= WORD - c.align)
  {
    ReallocCorrect(c, bs, end, Some(p), n);
    if 0 < n <= WORD - c.align {
      RtAlignIsCeiling(n, c.align);
    } else if 0 < n < WORD {
      RtAlignWraps(n, c.align);
      FreeCorrect(c, bs, end, p);
    }
  }

  /** Every such size frees the block and returns NULL. */
  lemma WrappedRealloc(c: Config, bs: seq<Block>, end: nat, p: nat, n: nat)
    requires Region(c, end) && WellFormed(c, bs, end) && IsLive(c, bs, p) && WORD - c.align < n < WORD
    ensures var (r, q) := Realloc(c, bs, end, Some(p), n);
      q.None? && r != bs && !IsLive(c, r, p)
  {
    RtAlignWraps(n, c.align);
    FreeCorrect(c, bs, end, p);
    var r := Free(c, bs, Some(p));
    NoLongerLive(c, bs, r, end, p);
  }

  /** A live block is determined by its offset. */
  lemma LiveAtOnce(c: Config, bs: seq<Block>, end: nat, p: nat, x: (nat, nat))
    requires WellFormed(c, bs, end) && IsLive(c, bs, p) && x in Live(bs, end) && x.0 == p - c.header
    ensures x == (p - c.header, BlockEnd(c, bs, end, p))
  {
    var i :| 0 <= i < |bs| && bs[i].used && x == (bs[i].off, At(bs, end, i + 1));
    IndexOfUnique(c.header, bs, end, i);
  }

  // -- The smallest payload ---------------------------------------------------------

  /** Every live payload has MIN_SIZE_ALIGNED bytes. */
  ghost predicate Roomy(c: Config, bs: seq<Block>, end: nat)
    requires c.Valid()
  {
    forall x | x in Live(bs, end) :: x.1 - x.0 - c.header >= MinAligned(c)
  }

  lemma AllocRoomy(c: Config, bs: seq<Block>, end: nat, n: nat)
    requires Region(c, end) && WellFormed(c, bs, end) && Roomy(c, bs, end)
    ensures Roomy(c, Alloc(c, bs, end, n).0, end)
  {
    AllocCorrect(c, bs, end, n);
    hide Alloc, Live, WellFormed;
  }

  lemma FreeRoomy(c: Config, bs: seq<Block>, end: nat, p: nat)
    requires Region(c, end) && WellFormed(c, bs, end) && Roomy(c, bs, end) && IsLive(c, bs, p)
    ensures Roomy(c, Free(c, bs, Some(p)), end)
  {
    FreeCorrect(c, bs, end, p);
    hide Free, Live, WellFormed;
  }

  lemma MoveRoomy(c: Config, bs: seq<Block>, end: nat, p: nat, size: nat)
    requires Region(c, end) && WellFormed(c, bs, end) && Roomy(c, bs, end) && IsLive(c, bs, p)
    ensures var (moved, q) := Alloc(c, bs, end, size);
      IsLive(c, moved, p) && WellFormed(c, moved, end) && Roomy(c, Free(c, moved, Some(p)), end)
  {
    AllocRoomy(c, bs, end, size);
    OthersStayLive(c, bs, end, size, p);
    AllocCorrect(c, bs, end, size);
    FreeRoomy(c, Alloc(c, bs, end, size).0, end, p);
    hide Alloc, Free, Live, WellFormed, MinAligned, Roomy, IsLive;
  }

  lemma ShrinkRoomyIff(c: Config, bs: seq<Block>, end: nat, k: nat, size: nat)
    requires Region(c, end) && WellFormed(c, bs, end) && Roomy(c, bs, end) && k < |bs| && bs[k].used
    requires 0 < size && size + c.header <= Payload(c, bs, end, k)
    ensures Roomy(c, Shrink(c, bs, k, size), end) <==> size >= MinAligned(c)
  {
    ReallocInPlace(c, bs, end, k, size);
    assert (bs[k].off, bs[k].off + c.header + size) in Live(Shrink(c, bs, k, size), end);
    hide Shrink, Live, WellFormed, MinAligned;
  }

  lemma PayloadInside(c: Config, bs: seq<Block>, end: nat, k: nat)
    requires WellFormed(c, bs, end) && k < |bs|
    ensures Payload(c, bs, end, k) <= end - c.header
  {
    Ordered(c.header, bs, end, k, k + 1);
    if k + 1 < |bs| { Ordered(c.header, bs, end, k + 1, |bs|); }
  }

  /** realloc keeps every payload at MIN_SIZE_ALIGNED or more exactly when it does not shrink
      a block in place to less: unlike alloc it does not raise the size it is given. */
  lemma MinimumKeptIff(c: Config, bs: seq<Block>, end: nat, p: nat, n: nat)
    requires Region(c, end) && WellFormed(c, bs, end) && Roomy(c, bs, end) && IsLive(c, bs, p)
    ensures Roomy(c, Realloc(c, bs, end, Some(p), n).0, end) <==>
      var size := RtAlign(n, c.align);
      !(0 < size < MinAligned(c) && size + c.header + c.minSize < BlockEnd(c, bs, end, p) - p)
  {
    var size, k := RtAlign(n, c.align), IndexOf(bs, p - c.header);
    PayloadInside(c, bs, end, k);
    hide Alloc, Free, Shrink, WellFormed, RtAlign, MinAligned, Roomy, IndexOf;
    if size > end - c.header {
    } else if size == 0 {
      FreeRoomy(c, bs, end, p);
    } else if Payload(c, bs, end, k) != size {
      if size + c.header + c.minSize < Payload(c, bs, end, k) {
        ShrinkRoomyIff(c, bs, end, k, size);
      } else {
        MoveRoomy(c, bs, end, p, size);
      }
    }
  }

  /** A heap of one used block. */
  lemma OneUsed(c: Config, bs: seq<Block>, end: nat)
    requires Region(c, end) && bs == [Block(0, true)] && end >= c.header + MinAligned(c)
    ensures WellFormed(c, bs, end) && Roomy(c, bs, end) && IsLive(c, bs, c.header)
    ensures BlockEnd(c, bs, end, c.header) == end
  {
    assert IndexOf(bs, 0) == 0;
    hide MinAligned;
  }

  /** In a build like the firmware's, with MIN_SIZE_ALIGNED of 16 bytes and an alignment of 8,
      cutting the only block to one byte leaves 8. */
  lemma ShrunkBelowMinimum(c: Config, bs: seq<Block>, end: nat)
    requires Region(c, end) && bs == [Block(0, true)] && RtAlign(1, c.align) < MinAligned(c) <= 2 * c.align
    requires 2 * c.align + 2 * c.header + c.minSize <= end
    ensures WellFormed(c, bs, end) && Roomy(c, bs, end) && IsLive(c, bs, c.header)
    ensures !Roomy(c, Realloc(c, bs, end, Some(c.header), 1).0, end)
  {
    OneUsed(c, bs, end);
    RtAlignIsCeiling(1, c.align);
    hide Roomy, WellFormed, Realloc, RtAlign, IsLive, BlockEnd;
    MinimumKeptIff(c, bs, end, c.header, 1);
  }

  lemma FirmwareMinimum()
    ensures var c := Config(8, 16, 12); c.Valid() && RtAlign(1, c.align) == 8 && MinAligned(c) == 16
  {
  }

  // -- Runs -----------------------------------------------------------------------

  datatype Call = DoAlloc(n: nat) | DoFree(p: Option<nat>) | DoRealloc(p: Option<nat>, n: nat)

  /** The block list after a run of calls that free and resize only live blocks. */
  function Run(c: Config, end: nat, calls: seq<Call>): Option<seq<Block>>
    requires Region(c, end)
    ensures Run(c, end, calls).Some? ==> WellFormed(c, Run(c, end, calls).value, end)
  {
    if calls == [] then Some([Block(0, false)])
    else
      var before := Run(c, end, calls[..|calls| - 1]);
      if before.None? then None else Step(c, before.value, end, calls[|calls| - 1])
  }

  function Step(c: Config, bs: seq<Block>, end: nat, call: Call): (r: Option<seq<Block>>)
    requires Region(c, end) && WellFormed(c, bs, end)
    ensures r.Some? ==> WellFormed(c, r.value, end)
  {
    match call
    case DoAlloc(n) =>
      AllocCorrect(c, bs, end, n);
      Some(Alloc(c, bs, end, n).0)
    case DoFree(p) =>
      if !Freeable(c, bs, p) then None
      else if p.None? then Some(bs)
      else FreeCorrect(c, bs, end, p.value); Some(Free(c, bs, p))
    case DoRealloc(p, n) =>
      if !Freeable(c, bs, p) then None
      else ReallocCorrect(c, bs, end, p, n); Some(Realloc(c, bs, end, p, n).0)
  }

  // -- Alignment ------------------------------------------------------------------

  lemma OccupyAligns(c: Config, bs: seq<Block>, end: nat, k: nat, size: nat)
    requires c.Valid() && AllAligned(c, bs, end) && k < |bs| && size % c.align == 0
    ensures AllAligned(c, Occupy(c, bs, end, k, size), end)
  {
    CutAligns(c, bs, end, k, size);
  }

  lemma AllocAligns(c: Config, bs: seq<Block>, end: nat, n: nat)
    requires Region(c, end) && AllAligned(c, bs, end)
    ensures AllAligned(c, Alloc(c, bs, end, n).0, end)
  {
    RtAlignAligned(n, c.align);
    RtAlignAligned(c.minSize, c.align);
    hide Occupy;
    if n > 0 && Request(c, n) <= end - c.header {
      var k := FirstFit(c, bs, end, Request(c, n));
      if k < |bs| { OccupyAligns(c, bs, end, k, Request(c, n)); }
    }
  }

  lemma FreeAligns(c: Config, bs: seq<Block>, end: nat, p: Option<nat>)
    requires AllAligned(c, bs, end) && Freeable(c, bs, p)
    ensures AllAligned(c, Free(c, bs, p), end)
  {
    if p.Some? {
      var k := IndexOf(bs, p.value - c.header);
      PlugAligns(c, bs[k := Block(bs[k].off, false)], end, k);
      hide Plug;
    }
  }

  lemma ReallocAligns(c: Config, bs: seq<Block>, end: nat, p: Option<nat>, n: nat)
    requires Region(c, end) && WellFormed(c, bs, end) && AllAligned(c, bs, end) && Freeable(c, bs, p)
    ensures AllAligned(c, Realloc(c, bs, end, p, n).0, end)
  {
    var size := RtAlign(n, c.align);
    RtAlignAligned(n, c.align);
    FreeAligns(c, bs, end, p);
    AllocAligns(c, bs, end, size);
    if p.Some? {
      var k := IndexOf(bs, p.value - c.header);
      OthersStayLive(c, bs, end, size, p.value);
      FreeAligns(c, Alloc(c, bs, end, size).0, end, p);
      CutAligns(c, bs, end, k, size);
      PlugAligns(c, Cut(c, bs, k, size), end, k + 1);
    }
    hide AllAligned, Alloc, Free, Cut, Plug, Tiled, Coalesced, RtAlign;
  }

  lemma {:induction false} RunKeepsAligned(c: Config, end: nat, calls: seq<Call>)
    requires Region(c, end) && AllAligned(c, [Block(0, false)], end)
    ensures Run(c, end, calls).Some? ==> AllAligned(c, Run(c, end, calls).value, end)
  {
    hide WellFormed, AllAligned, Step;
    if calls != [] && Run(c, end, calls).Some? {
      RunKeepsAligned(c, end, calls[..|calls| - 1]);
      StepAligns(c, Run(c, end, calls[..|calls| - 1]).value, end, calls[|calls| - 1]);
    }
  }

  ghost predicate PayloadAligned(c: Config, x: (nat, nat)) {
    c.align > 0 && (x.0 + c.header) % c.align == 0 && x.0 + c.header + c.align <= x.1
  }

  /** After every run, live payloads are aligned and at least RT_ALIGN_SIZE long. */
  lemma RunAligned(c: Config, end: nat, calls: seq<Call>)
    requires Region(c, end) && c.header % c.align == 0 && end % c.align == 0
    ensures var r := Run(c, end, calls);
      r.Some? ==> AllAligned(c, r.value, end) && forall x | x in Live(r.value, end) :: PayloadAligned(c, x)
  {
    assert 0 % c.align == 0 by { SmallMod(0, c.align); }
    RunKeepsAligned(c, end, calls);
    if Run(c, end, calls).Some? {
      LiveAligned(c, Run(c, end, calls).value, end);
    }
    hide Run, AllAligned, Live;
  }

  lemma StepAligns(c: Config, bs: seq<Block>, end: nat, call: Call)
    requires Region(c, end) && WellFormed(c, bs, end) && AllAligned(c, bs, end)
    ensures Step(c, bs, end, call).Some? ==> AllAligned(c, Step(c, bs, end, call).value, end)
  {
    hide AllAligned, WellFormed, Alloc, Free, Realloc;
    match call
    case DoAlloc(n) => AllocAligns(c, bs, end, n);
    case DoFree(p) => if Freeable(c, bs, p) { FreeAligns(c, bs, end, p); }
    case DoRealloc(p, n) => if Freeable(c, bs, p) { ReallocAligns(c, bs, end, p, n); }
  }

  lemma LiveAligned(c: Config, bs: seq<Block>, end: nat)
    requires WellFormed(c, bs, end) && AllAligned(c, bs, end)
    ensures forall x | x in Live(bs, end) :: PayloadAligned(c, x)
  {
    forall x | x in Live(bs, end)
      ensures PayloadAligned(c, x)
    {
      var i :| 0 <= i < |bs| && bs[i].used && x == (bs[i].off, At(bs, end, i + 1));
      assert Holds(c.header, bs, end, i);
      AlignedSum(x.0, c.header, c.align);
      AlignedSum(x.1, x.0 + c.header, c.align);
      AlignedAtLeast(x.1 - (x.0 + c.header), c.align);
    }
  }

  // -- Initialisation -------------------------------------------------------------

  /** The address computation of rt_smem_init: heap_ptr and mem_size_aligned, given the size
      of the control structure placed in front. */
  function Layout(c: Config, begin: nat, size: nat, control: nat): Option<(nat, int)>
    requires c.Valid()
  {
    var start := RtAlign(begin, c.align) + control;
    var beginAlign := RtAlign(start, c.align);
    var endAlign := RtAlignDown(begin + size, c.align);
    if endAlign > 2 * c.header && endAlign - 2 * c.header >= start
    then Some((beginAlign, endAlign - beginAlign - 2 * c.header))
    else None
  }

  lemma LayoutAligned(c: Config, begin: nat, size: nat, control: nat)
    requires c.Valid() && c.header % c.align == 0
    ensures var r := Layout(c, begin, size, control);
      r.Some? ==> r.value.0 % c.align == 0 && (r.value.1 + c.header) % c.align == 0
  {
    var start := RtAlign(begin, c.align) + control;
    var b, e := RtAlign(start, c.align), RtAlignDown(begin + size, c.align);
    RtAlignAligned(start, c.align);
    RtAlignAligned(begin + size, c.align);
    hide RtAlign, RtAlignDown;
    EndsAligned(c, b, e);
  }

  /** When rt_smem_init succeeds its subtraction has not wrapped, and the heap starts at an
      aligned address behind the aligned control structure and ends, with both headers, inside
      the memory it was given. */
  lemma LayoutFits(c: Config, begin: nat, size: nat, control: nat)
    requires c.Valid() && c.header % c.align == 0 && begin + size < WORD
    requires RtAlign(begin, c.align) + control <= WORD - c.align && begin <= WORD - c.align
    ensures var r := Layout(c, begin, size, control);
      r.Some? ==>
        && r.value.1 >= 0
        && r.value.0 >= RtAlign(begin, c.align) + control >= begin + control
        && r.value.0 + r.value.1 + 2 * c.header <= begin + size
        && Region(c, r.value.1 + c.header)
        && r.value.0 % c.align == 0 && (r.value.1 + c.header) % c.align == 0
  {
    if Layout(c, begin, size, control).Some? {
      var start := RtAlign(begin, c.align) + control;
      var b, e := RtAlign(start, c.align), RtAlignDown(begin + size, c.align);
      LayoutAligned(c, begin, size, control);
      RtAlignIsCeiling(begin, c.align);
      RtAlignIsCeiling(start, c.align);
      assert b % c.align == 0 && e % c.align == 0 by {
        RtAlignAligned(start, c.align);
        RtAlignAligned(begin + size, c.align);
      }
      hide RtAlign, RtAlignDown;
      EndsAligned(c, b, e);
    }
  }

  /** When rt_smem_init succeeds, and how large the heap then is: it reaches from the least
      aligned address behind the control structure to two headers below the greatest aligned
      address in the memory given, and it fails exactly when these two headers do not fit. */
  lemma LayoutIff(c: Config, begin: nat, size: nat, control: nat, start: nat, low: nat, high: nat)
    requires c.Valid() && begin + size < WORD && start <= WORD - c.align && begin <= WORD - c.align
    requires RtAlign(begin, c.align) + control == start
    requires low % c.align == 0 && start <= low < start + c.align
    requires high % c.align == 0 && high <= begin + size < high + c.align
    ensures Layout(c, begin, size, control) ==
      if high > 2 * c.header && high >= start + 2 * c.header then Some((low, high - low - 2 * c.header)) else None
  {
    hide RtAlign, RtAlignDown;
    RtAlignUnique(start, c.align, low);
    RtAlignDownUnique(begin + size, c.align, high);
    LayoutIs(c, begin, size, control, low, high);
  }

  lemma LayoutIs(c: Config, begin: nat, size: nat, control: nat, low: nat, high: nat)
    requires c.Valid() && RtAlign(RtAlign(begin, c.align) + control, c.align) == low
    requires RtAlignDown(begin + size, c.align) == high
    ensures Layout(c, begin, size, control) ==
      if high > 2 * c.header && high >= RtAlign(begin, c.align) + control + 2 * c.header
      then Some((low, high - low - 2 * c.header)) else None
  {
    hide RtAlign, RtAlignDown;
  }

  /** Between two aligned addresses, less the two headers, an aligned number of bytes remains. */
  lemma EndsAligned(c: Config, b: nat, e: nat)
    requires c.Valid() && c.header % c.align == 0 && b % c.align == 0 && e % c.align == 0
    ensures (e - b - 2 * c.header + c.header) % c.align == 0
    ensures b < e - 2 * c.header + c.align ==> b <= e - 2 * c.header
  {
    var a, h := c.align, c.header;
    AlignedSum(e, h, a);
    AlignedSum(e - h, h, a);
    AlignedSum(e - h, b, a);
    if b < e - 2 * h + a { AlignedGap(b, e - h - h, a); }
    assert e - b - 2 * h + h == e - h - b;
  }
}
