/** Where rt_susp_list_enqueue puts a thread: on the sequence of priorities in list order. */
module PrioOrder {
  ghost predicate Sorted(ps: seq<nat>) {
    forall i, j | 0 <= i < j < |ps| :: ps[i] <= ps[j]
  }

  /** First position whose thread has a strictly larger priority number, or the end. */
  function Slot(ps: seq<nat>, p: nat): (k: nat)
    ensures k <= |ps|
    ensures k < |ps| ==> p < ps[k]
    ensures forall i | 0 <= i < k :: ps[i] <= p
  {
    if ps == [] || p < ps[0] then 0 else 1 + Slot(ps[1..], p)
  }

  lemma SlotUnique(ps: seq<nat>, p: nat, k: nat)
    requires k <= |ps| && (k < |ps| ==> p < ps[k])
    requires forall i | 0 <= i < k :: ps[i] <= p
    ensures Slot(ps, p) == k
  {
  }

  function InsertAt<T>(s: seq<T>, k: nat, x: T): seq<T>
    requires k <= |s|
  {
    s[..k] + [x] + s[k..]
  }

  /** Where rt_susp_list_enqueue puts x of priority p: behind the last, or by priority. */
  function Enlisted<T>(s: seq<T>, ps: seq<nat>, x: T, p: nat, byPrio: bool): seq<T>
    requires |ps| == |s|
  {
    if byPrio then InsertAt(s, Slot(ps, p), x) else s + [x]
  }

  /** The others keep their order; the newcomer goes to the end, or behind everyone of its
      priority or a higher one and in front of everyone else. */
  lemma EnlistedOrder<T>(s: seq<T>, ps: seq<nat>, x: T, p: nat, byPrio: bool) returns (k: nat)
    requires |ps| == |s|
    ensures k <= |s| && Enlisted(s, ps, x, p, byPrio) == s[..k] + [x] + s[k..]
    ensures !byPrio ==> k == |s|
    ensures byPrio && Sorted(ps) ==> forall i | 0 <= i < |s| :: i < k <==> ps[i] <= p
  {
    k := if byPrio then Slot(ps, p) else |s|;
    if Sorted(ps) { SlotKeepsSorted(ps, p); }
  }

  /** A sorted list stays sorted; the newcomer goes behind every thread of its own priority
      and in front of every thread of a larger priority number. */
  lemma SlotKeepsSorted(ps: seq<nat>, p: nat)
    requires Sorted(ps)
    ensures Sorted(InsertAt(ps, Slot(ps, p), p))
    ensures forall i | 0 <= i < |ps| :: i < Slot(ps, p) <==> ps[i] <= p
  {
  }
}
