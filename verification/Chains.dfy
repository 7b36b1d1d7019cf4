/** Singly linked lists of numbered nodes: next[k] is the pointer in node k, None is NULL. */
module Chains {
  import opened Options
  import opened Seqs

  function Head(s: seq<nat>): Option<nat> {
    if s == [] then None else Some(s[0])
  }

  /** The i-th node of s points to the one after it, the last to NULL. */
  ghost predicate LinkedAt(next: seq<Option<nat>>, s: seq<nat>, i: nat)
    requires i < |s|
  {
    s[i] < |next| && next[s[i]] == Head(s[i + 1..])
  }

  ghost predicate Chain(next: seq<Option<nat>>, s: seq<nat>) {
    forall i | 0 <= i < |s| :: LinkedAt(next, s, i)
  }

  lemma ChainTail(next: seq<Option<nat>>, s: seq<nat>)
    requires Chain(next, s) && s != []
    ensures s[0] < |next| && next[s[0]] == Head(s[1..]) && Chain(next, s[1..])
  {
    assert LinkedAt(next, s, 0);
    forall i | 0 <= i < |s| - 1 ensures LinkedAt(next, s[1..], i) {
      assert LinkedAt(next, s, i + 1) && s[1..][i + 1..] == s[i + 2..];
    }
  }

  /** Pointers of nodes outside a list do not matter to it. */
  lemma ChainFrame(next: seq<Option<nat>>, s: seq<nat>, k: nat, p: Option<nat>)
    requires Chain(next, s) && k !in s && k < |next|
    ensures Chain(next[k := p], s)
  {
    var r := next[k := p];
    forall i | 0 <= i < |s| ensures LinkedAt(r, s, i) { assert LinkedAt(next, s, i); }
  }

  lemma ChainPrepend(next: seq<Option<nat>>, s: seq<nat>, k: nat)
    requires Chain(next, s) && k !in s && k < |next|
    ensures Chain(next[k := Head(s)], [k] + s)
  {
    ChainFrame(next, s, k, Head(s));
    var n, r := next[k := Head(s)], [k] + s;
    assert r[1..] == s;
    forall i | 0 <= i < |r| ensures LinkedAt(n, r, i) {
      if i > 0 { assert LinkedAt(n, s, i - 1) && r[i + 1..] == s[i..]; }
    }
  }

  lemma ChainAppend(next: seq<Option<nat>>, s: seq<nat>, k: nat)
    requires Chain(next, s) && Distinct(s) && k !in s && k < |next| && next[k] == None
    ensures s == [] ==> Chain(next, [k])
    ensures s != [] ==> s[|s| - 1] < |next| && Chain(next[s[|s| - 1] := Some(k)], s + [k])
  {
    var r := s + [k];
    if s == [] {
      assert LinkedAt(next, [k], 0);
    } else {
      var l := s[|s| - 1];
      assert LinkedAt(next, s, |s| - 1);
      var n := next[l := Some(k)];
      forall i | 0 <= i < |r| ensures LinkedAt(n, r, i) {
        if i < |s| { assert LinkedAt(next, s, i); }
        if i < |s| - 1 { assert r[i + 1..][0] == s[i + 1..][0]; }
      }
    }
  }
}
