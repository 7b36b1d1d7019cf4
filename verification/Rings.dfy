/** Positions in a ring of n places. */
module Rings {
  import opened Align

  /** Ring position i of n, for i at most one turn ahead. */
  function Wrap(i: nat, n: nat): nat {
    if i < n then i else i - n
  }

  lemma WrapIsMod(i: nat, n: nat)
    requires i < 2 * n
    ensures Wrap(i, n) == i % n
  {
    if i < n {
      SmallMod(i, n);
    } else {
      SmallMod(i - n, n);
      assert i / n == 1;
    }
  }
}
