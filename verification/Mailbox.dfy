/** The mailbox of rt-thread/src/ipc.c: a ring of words that is a bounded deque. */
module Mailbox {
  import opened Rings

  // RT_MB_ENTRY_MAX; also the largest value of the 16-bit offsets and sizes.
  const ENTRY_MAX: nat := 0xffff

  /** BLOCKED is a caller that suspends; it comes back to the same test once woken. */
  datatype Err = OK | EFULL | ETIMEOUT | BLOCKED

  class Box {
    const pool: array<nat>
    const size: nat
    var entry: nat
    var inOffset: nat
    var outOffset: nat

    ghost predicate InRange()
      reads this
    {
      && 0 < size <= ENTRY_MAX && size <= pool.Length
      && inOffset < size && outOffset < size
    }

    /** The input offset is `entry` places after the output offset, around the ring. */
    ghost predicate Valid()
      reads this
    {
      && entry <= size
      && (size > 0 ==> InRange() && inOffset == Wrap(outOffset + entry, size))
    }

    /** The mails in the order rt_mb_recv gives them out. */
    ghost function Contents(): (s: seq<nat>)
      requires Valid()
      reads this, pool
      ensures |s| == entry && forall i | 0 <= i < entry :: s[i] == pool[Wrap(outOffset + i, size)]
    {
      seq(entry, i requires 0 <= i < entry && size > 0 && InRange() && entry <= size reads this, pool =>
        pool[Wrap(outOffset + i, size)])
    }

    lemma OffsetsAgree()
      requires Valid() && size > 0
      ensures inOffset == (outOffset + entry) % size
    {
      WrapIsMod(outOffset + entry, size);
    }

    /** rt_mb_init; the size is cut to 16 bits. */
    constructor (msgpool: array<nat>, size: nat)
      requires size == msgpool.Length
      ensures Valid() && pool == msgpool && this.size == size % (ENTRY_MAX + 1) && Contents() == []
    {
      pool := msgpool;
      this.size := size % (ENTRY_MAX + 1);
      entry, inOffset, outOffset := 0, 0, 0;
    }

    /** The end of rt_mb_send_wait, whatever the number of mails. */
    method Put(value: nat) returns (e: Err)
      requires InRange()
      modifies this`entry, this`inOffset, pool
      ensures pool[..] == old(pool[..])[old(inOffset) := value] && inOffset == Wrap(old(inOffset) + 1, size)
      ensures if old(entry) < ENTRY_MAX then e == OK && entry == old(entry) + 1 else e == EFULL && entry == old(entry)
    {
      pool[inOffset] := value;
      inOffset := inOffset + 1;
      if inOffset >= size {
        inOffset := 0;
      }
      if entry < ENTRY_MAX {
        entry := entry + 1;
      } else {
        return EFULL;
      }
      return OK;
    }

    /** rt_mb_send_wait. The overflow return of Put is never taken. */
    method Send(value: nat, timeout: int) returns (e: Err)
      requires Valid()
      modifies this`entry, this`inOffset, pool
      ensures Valid()
      ensures |old(Contents())| == size ==> e == (if timeout == 0 then EFULL else BLOCKED)
      ensures |old(Contents())| < size ==> e == OK
      ensures Contents() == if e == OK then old(Contents()) + [value] else old(Contents())
    {
      if entry == size && timeout == 0 {
        return EFULL;
      }
      if entry == size {
        return BLOCKED;
      }
      ghost var was := Contents();
      e := Put(value);
      assert Contents() == was + [value];
    }

    /** rt_mb_urgent */
    method Urgent(value: nat) returns (e: Err)
      requires Valid()
      modifies this`entry, this`outOffset, pool
      ensures Valid()
      ensures e == if |old(Contents())| == size then EFULL else OK
      ensures Contents() == if e == OK then [value] + old(Contents()) else old(Contents())
    {
      if entry == size {
        return EFULL;
      }
      ghost var was := Contents();
      if outOffset > 0 {
        outOffset := outOffset - 1;
      } else {
        outOffset := size - 1;
      }
      pool[outOffset] := value;
      entry := entry + 1;
      assert Contents() == [value] + was;
      return OK;
    }

    /** rt_mb_recv */
    method Recv(timeout: int) returns (value: nat, e: Err)
      requires Valid()
      modifies this`entry, this`outOffset
      ensures Valid()
      ensures old(Contents()) == [] ==> e == (if timeout == 0 then ETIMEOUT else BLOCKED) && Contents() == []
      ensures old(Contents()) != [] ==> e == OK && [value] + Contents() == old(Contents())
    {
      value := 0;
      if entry == 0 && timeout == 0 {
        return value, ETIMEOUT;
      }
      if entry == 0 {
        return value, BLOCKED;
      }
      ghost var was := Contents();
      value := pool[outOffset];
      outOffset := outOffset + 1;
      if outOffset >= size {
        outOffset := 0;
      }
      if entry > 0 {
        entry := entry - 1;
      }
      assert Contents() == was[1..];
      return value, OK;
    }

    /** rt_mb_control with RT_IPC_CMD_RESET */
    method Reset()
      requires Valid()
      modifies this`entry, this`inOffset, this`outOffset
      ensures Valid() && Contents() == []
    {
      entry := 0;
      inOffset := 0;
      outOffset := 0;
    }
  }
}
