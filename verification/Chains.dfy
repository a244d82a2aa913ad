/** Chains of fragments, each named by the number of the event that brought it, and that no two chains share one. */
module Chains {

  type Chain = seq<nat>

  ghost predicate Apart(c: Chain, d: Chain) { forall i, j :: 0 <= i < |c| && 0 <= j < |d| ==> c[i] != d[j] }

  /** All fragments came before event `n`. */
  ghost predicate Before(c: Chain, n: nat) { forall i :: 0 <= i < |c| ==> c[i] < n }

  ghost predicate AllApart(cs: seq<Chain>) { forall i, j :: 0 <= i < j < |cs| ==> Apart(cs[i], cs[j]) }

  ghost predicate AllBefore(cs: seq<Chain>, n: nat) { forall i :: 0 <= i < |cs| ==> Before(cs[i], n) }

  ghost predicate Across(cs: seq<Chain>, ds: seq<Chain>) {
    forall i, j :: 0 <= i < |cs| && 0 <= j < |ds| ==> Apart(cs[i], ds[j])
  }

  /** What is being collected and what was delivered after `n` events: no fragment is in two places. */
  ghost predicate NoneTwice(open: seq<Chain>, done: seq<Chain>, n: nat) {
    AllApart(open) && AllApart(done) && Across(open, done) && AllBefore(open, n) && AllBefore(done, n)
  }

  /** A chain that loses its fragments or gains event `n`. */
  lemma Change(open: seq<Chain>, done: seq<Chain>, n: nat, k: nat, c: Chain)
    requires NoneTwice(open, done, n) && k < |open| && (c == [] || c == [n] || c == open[k] + [n])
    ensures NoneTwice(open[k := c], done, n + 1)
  {
    forall d | Before(d, n) && Apart(open[k], d)
      ensures Apart(c, d)
    {
    }
    forall i | 0 <= i < |open| && i != k
      ensures Apart(c, open[i]) && Apart(open[i], c)
    {
      if i < k { assert Apart(open[i], open[k]); } else { assert Apart(open[k], open[i]); }
      assert Before(open[i], n);
    }
  }

  /** A chain that is delivered, with event `n` as its last fragment. */
  lemma Deliver(open: seq<Chain>, done: seq<Chain>, n: nat, k: nat)
    requires NoneTwice(open, done, n) && k < |open|
    ensures NoneTwice(open[k := []], done + [open[k] + [n]], n + 1)
  {
    var c := open[k] + [n];
    forall i | 0 <= i < |open| && i != k
      ensures Apart(open[i], c)
    {
      if i < k { assert Apart(open[i], open[k]); } else { assert Apart(open[k], open[i]); }
      assert Before(open[i], n);
    }
    forall i | 0 <= i < |done|
      ensures Apart(done[i], c)
    {
      assert Apart(open[k], done[i]) && Before(done[i], n);
    }
  }

  /** A message that is one fragment. */
  lemma DeliverOne(open: seq<Chain>, done: seq<Chain>, n: nat)
    requires NoneTwice(open, done, n)
    ensures NoneTwice(open, done + [[n]], n + 1)
  {
    forall i | 0 <= i < |open|
      ensures Apart(open[i], [n])
    {
      assert Before(open[i], n);
    }
    forall i | 0 <= i < |done|
      ensures Apart(done[i], [n])
    {
      assert Before(done[i], n);
    }
  }

  /** An event that uses nothing. */
  lemma Pass(open: seq<Chain>, done: seq<Chain>, n: nat)
    requires NoneTwice(open, done, n)
    ensures NoneTwice(open, done, n + 1)
  {
  }

  /** Chains that are given up. */
  lemma Forget(open: seq<Chain>, open': seq<Chain>, done: seq<Chain>, n: nat)
    requires NoneTwice(open, done, n) && |open'| == |open| && forall i :: 0 <= i < |open| ==> open'[i] == open[i] || open'[i] == []
    ensures NoneTwice(open', done, n)
  {
  }
}
