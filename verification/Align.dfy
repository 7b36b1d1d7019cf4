/** RT_ALIGN and RT_ALIGN_DOWN of rt-thread/include/rtdef.h on 32-bit sizes, and the
    divisibility facts the allocators need. */
module Align {

  // rt_size_t is 32 bits wide on this part.
  const WORD: nat := 0x1_0000_0000

  /** RT_ALIGN: the addition wraps, the mask rounds down. The header demands a power of two. */
  function RtAlign(n: nat, align: nat): (r: nat)
    requires align > 0
    ensures r < WORD
  {
    RtAlignDown((n + align - 1) % WORD, align)
  }

  function RtAlignDown(n: nat, align: nat): (r: nat)
    requires align > 0
    ensures r <= n < r + align
  {
    n - n % align
  }

  lemma RtAlignAligned(n: nat, align: nat)
    requires align > 0
    ensures RtAlignDown(n, align) % align == 0 && RtAlign(n, align) % align == 0
  {
    RoundsDown(n, align);
    RoundsDown((n + align - 1) % WORD, align);
  }

  lemma RoundsDown(t: nat, a: nat)
    requires a > 0
    ensures 0 <= t % a <= t && t % a < a
    ensures (t - t % a) % a == 0
  {
    assert t == a * (t / a) + t % a;
    MultipleMod(t / a, a);
  }

  lemma MultipleMod(q: int, a: nat)
    requires a > 0
    ensures (a * q) % a == 0
  {
    var d, r := (a * q) / a, (a * q) % a;
    assert a * (q - d) == r;
    if q - d >= 1 { MulMonotone(a, 1, q - d); }
    if q - d <= -1 { MulMonotone(a, q - d, -1); }
  }

  lemma MulMonotone(a: nat, x: int, y: int)
    requires x <= y
    ensures a * x <= a * y
  {
  }

  lemma SmallMod(t: nat, a: nat)
    requires t < a
    ensures t % a == t
  {
    if t / a >= 1 { MulMonotone(a, 1, t / a); }
  }

  lemma AlignedSum(x: int, y: int, a: nat)
    requires a > 0 && x % a == 0 && y % a == 0
    ensures (x + y) % a == 0 && (x - y) % a == 0
  {
    assert x == a * (x / a) && y == a * (y / a);
    assert x + y == a * (x / a + y / a) && x - y == a * (x / a - y / a);
    MultipleMod(x / a + y / a, a);
    MultipleMod(x / a - y / a, a);
  }

  /** A positive aligned number is at least one alignment unit. */
  lemma AlignedAtLeast(x: int, a: nat)
    requires a > 0 && x % a == 0 && x > 0
    ensures x >= a
  {
    assert x == a * (x / a);
    MulMonotone(a, 1, x / a);
  }

  /** Aligned numbers less than one unit apart are ordered. */
  lemma AlignedGap(x: int, y: int, a: nat)
    requires a > 0 && x % a == 0 && y % a == 0 && x < y + a
    ensures x <= y
  {
    if x > y {
      AlignedSum(x, y, a);
      AlignedAtLeast(x - y, a);
    }
  }

  /** Without wrap-around RT_ALIGN is the least multiple of the alignment that is not below n. */
  lemma RtAlignIsCeiling(n: nat, align: nat)
    requires 0 < align <= WORD && n <= WORD - align
    ensures n <= RtAlign(n, align) < n + align
  {
    var t := n + align - 1;
    assert t % WORD == t;
  }

  /** Past the wrap-around point RT_ALIGN yields zero. */
  lemma RtAlignWraps(n: nat, align: nat)
    requires 0 < align <= WORD && WORD - align < n < WORD
    ensures RtAlign(n, align) == 0
  {
    var t := n + align - 1 - WORD;
    assert 0 <= t < align;
    assert (n + align - 1) % WORD == t;
    SmallMod(t, align);
  }

  /** RT_ALIGN is the only multiple less than one unit above n. */
  lemma RtAlignUnique(n: nat, align: nat, x: nat)
    requires 0 < align <= WORD && n <= WORD - align && x % align == 0 && n <= x < n + align
    ensures RtAlign(n, align) == x
  {
    RtAlignIsCeiling(n, align);
    RtAlignAligned(n, align);
    hide RtAlign;
    AlignedGap(x, RtAlign(n, align), align);
    AlignedGap(RtAlign(n, align), x, align);
  }

  /** RT_ALIGN_DOWN is the only multiple less than one unit below n. */
  lemma RtAlignDownUnique(n: nat, align: nat, x: nat)
    requires 0 < align && x % align == 0 && x <= n < x + align
    ensures RtAlignDown(n, align) == x
  {
    RoundsDown(n, align);
    AlignedGap(x, RtAlignDown(n, align), align);
    AlignedGap(RtAlignDown(n, align), x, align);
  }

  /** Aligning twice is aligning once. */
  lemma RtAlignTwice(n: nat, align: nat)
    requires 0 < align <= WORD && RtAlign(n, align) <= WORD - align
    ensures RtAlign(RtAlign(n, align), align) == RtAlign(n, align)
  {
    var a := RtAlign(n, align);
    RtAlignIsCeiling(a, align);
    RtAlignAligned(n, align);
    RtAlignAligned(a, align);
    AlignedGap(RtAlign(a, align), a, align);
  }

  /** Slots of one stride each, as many as fit, lie one after the other inside the memory. */
  lemma SlotsFit(size: nat, stride: nat, k: nat)
    requires 0 < stride && k < size / stride
    ensures k * stride + stride <= size
  {
    MulMonotone(stride, k + 1, size / stride);
    assert stride * (size / stride) <= size;
  }
}
