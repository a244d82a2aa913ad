/** What is not lost by `sbd_extract`: a message of several packets that nothing disturbs is delivered. */
module SbdDelivery {
  import opened Chains
  import opened SbdReassembly

  /** The slots that packet `k` is placed in: those before it, less the expired ones. */
  function SlotsFor(ps: seq<Packet>, k: nat): (slots: seq<Slot>)
    requires k < |ps|
    ensures |slots| == SBD_MAX_MULTI
  {
    Expire(After(ps, k).slots, ps[k].time)
  }

  /** Packet `k` leaves slot `x` alone: it does not make it expire, continue it or evict it. */
  ghost predicate Spares(ps: seq<Packet>, k: nat, x: nat)
    requires k < |ps| && x < SBD_MAX_MULTI
  {
    Usable(ps, k) ==>
      var f := Part(ps, k);
      && ps[k].time <= After(ps, k).slots[x].time + 5_000_000_000
      && if f.msgcnt > 1 then f.msgno > 0 ==> Chosen(SlotsFor(ps, k)) != x
         else f.msgno > 1 ==> LastMatch(SlotsFor(ps, k), f, ps[k].ul, SBD_MAX_MULTI) != x
  }

  /** A chain that is complete: its first packet announces the number of its last, and the others announce nothing. */
  ghost predicate Whole(ps: seq<Packet>, c: Chain) {
    && IsChain(ps, c) && |c| > 1 && Part(ps, c[0]).msgno > 0
    && Part(ps, c[|c| - 1]).msgno == Part(ps, c[0]).msgcnt
    && forall j :: 0 < j < |c| ==> Part(ps, c[j]).msgcnt <= 1
  }

  /**
   The first packet of the chain starts a message in slot `x`, no slot after `x` takes a later one, and all packets
   between that are not of the chain leave the slot alone.
   */
  ghost predicate Undisturbed(ps: seq<Packet>, c: Chain, x: nat)
    requires IsChain(ps, c)
  {
    && x < SBD_MAX_MULTI && Chosen(SlotsFor(ps, c[0])) == x
    && (forall j, i :: 0 < j < |c| && x < i < SBD_MAX_MULTI ==> !Continues(SlotsFor(ps, c[j])[i], Part(ps, c[j]), ps[c[j]].ul))
    && forall j, k :: 0 < j < |c| && c[j - 1] < k < c[j] ==> Spares(ps, k, x)
  }

  /** Slot `x` holds the first `m` packets of the chain before packet `k`. */
  ghost predicate Holds(ps: seq<Packet>, c: Chain, x: nat, m: nat, k: nat)
    requires k <= |ps| && x < SBD_MAX_MULTI && m <= |c|
  {
    After(ps, k).slots[x].active && After(ps, k).slots[x].chain == c[..m]
  }

  lemma {:induction false} MatchIs(slots: seq<Slot>, f: Fragment, ul: bool, x: nat, i: nat)
    requires x < i <= |slots| && Continues(slots[x], f, ul) && forall k :: x < k < i ==> !Continues(slots[k], f, ul)
    ensures LastMatch(slots, f, ul, i) == x
  {
    if x < i - 1 { MatchIs(slots, f, ul, x, i - 1); }
  }

  lemma SparedStays(ps: seq<Packet>, k: nat, x: nat)
    requires k < |ps| && x < SBD_MAX_MULTI && Spares(ps, k, x)
    ensures After(ps, k + 1).slots[x] == After(ps, k).slots[x]
  {
    StepIs(ps, After(ps, k), k);
    hide Header, Part, Usable, Step, Chosen, LastMatch;
  }

  /** The slot that holds the first `m` packets has not expired and is continued by the next. */
  lemma NextMatches(ps: seq<Packet>, c: Chain, x: nat, m: nat)
    requires IsChain(ps, c) && Undisturbed(ps, c, x) && 0 < m < |c| && c[m] < |ps| && Holds(ps, c, x, m, c[m])
    ensures SlotsFor(ps, c[m])[x] == After(ps, c[m]).slots[x]
    ensures LastMatch(SlotsFor(ps, c[m]), Part(ps, c[m]), ps[c[m]].ul, SBD_MAX_MULTI) == x
    ensures After(ps, c[m]).slots[x].msgcnt == Part(ps, c[0]).msgcnt
  {
    hide Header, Part, Usable;
    var s := After(ps, c[m]).slots[x];
    RunInv(ps, c[m]);
    assert Collecting(ps, s);
    assert Follows(ps, c[m - 1], c[m]);
    assert s.chain[0] == c[0] && s.chain[m - 1] == c[m - 1];
    MatchIs(SlotsFor(ps, c[m]), Part(ps, c[m]), ps[c[m]].ul, x, SBD_MAX_MULTI);
  }

  /** What packet `m` of the chain does to a state in which the slot holds those before. */
  lemma NextPlaced(ps: seq<Packet>, c: Chain, x: nat, m: nat)
    requires Whole(ps, c) && Undisturbed(ps, c, x) && 0 < m < |c| && Usable(ps, c[m]) && Holds(ps, c, x, m, c[m])
    ensures m < |c| - 1 ==> Holds(ps, c, x, m + 1, c[m] + 1)
    ensures m == |c| - 1 ==>
      var out := After(ps, c[m] + 1).out;
      |out| > 0 && out[..|out| - 1] == After(ps, c[m]).out && out[|out| - 1].chain == c
  {
    hide Header, Part, Step, LastMatch, Expire, After, Undisturbed, Placed;
    NextMatches(ps, c, x, m);
    NextNumber(ps, c, m);
    AfterIs(ps, c[m]);
    assert c[..m] + [c[m]] == c[..m + 1] && c[..|c|] == c;
    PlacedNext(After(ps, c[m]).(slots := SlotsFor(ps, c[m])), Part(ps, c[m]), ps[c[m]], c[m], x);
  }

  /** The packet has a number above one, which is the announced count just for the last. */
  lemma NextNumber(ps: seq<Packet>, c: Chain, m: nat)
    requires Whole(ps, c) && 0 < m < |c|
    ensures Part(ps, c[m]).msgno > 1 && Part(ps, c[m]).msgcnt <= 1
    ensures Part(ps, c[m]).msgno == Part(ps, c[0]).msgcnt <==> m == |c| - 1
  {
    hide Header, Part, Usable, Follows;
    Numbered(ps, c, m);
    Numbered(ps, c, |c| - 1);
  }

  lemma AfterIs(ps: seq<Packet>, n: nat)
    requires n < |ps| && Usable(ps, n)
    ensures After(ps, n + 1) == Placed(After(ps, n).(slots := SlotsFor(ps, n)), Part(ps, n), ps[n], n)
  {
    hide Header, Part, Step, Placed, Expire;
    StepIs(ps, After(ps, n), n);
  }

  /** A fragment that continues slot `x`. */
  lemma PlacedNext(s: State, f: Fragment, p: Packet, n: nat, x: nat)
    requires |s.slots| == SBD_MAX_MULTI && x < |s.slots| && f.msgno > 1 && f.msgcnt <= 1
    requires LastMatch(s.slots, f, p.ul, SBD_MAX_MULTI) == x
    ensures var s', y := Placed(s, f, p, n), Extended(s.slots[x], f, p, n);
      if f.msgno == y.msgcnt then |s'.out| == |s.out| + 1 && s'.out[..|s.out|] == s.out && s'.out[|s.out|].chain == y.chain
      else s'.slots[x] == y
  {
    hide LastMatch;
  }

  lemma HeldStarts(ps: seq<Packet>, c: Chain, x: nat)
    requires Whole(ps, c) && Undisturbed(ps, c, x)
    ensures c[0] < |ps| && Holds(ps, c, x, 1, c[0] + 1)
  {
    assert Usable(ps, c[0]);
    StepIs(ps, After(ps, c[0]), c[0]);
    assert [c[0]] == c[..1];
    hide Header, Part, Usable, Step;
  }

  /** Between its packets number `m - 1` and `m` the slot holds the first `m` of the chain. */
  lemma {:induction false} Held(ps: seq<Packet>, c: Chain, x: nat, m: nat, k: nat)
    requires Whole(ps, c) && Undisturbed(ps, c, x) && 0 < m < |c| && c[m - 1] < k <= c[m] < |ps|
    ensures Holds(ps, c, x, m, k)
    decreases k
  {
    hide Header, Part, Follows;
    if k - 1 > c[m - 1] {
      Held(ps, c, x, m, k - 1);
      SparedStays(ps, k - 1, x);
    } else if m == 1 {
      HeldStarts(ps, c, x);
    } else {
      InOrder(ps, c, m - 1);
      Held(ps, c, x, m - 1, k - 1);
      NextPlaced(ps, c, x, m - 1);
    }
  }

  lemma InOrder(ps: seq<Packet>, c: Chain, m: nat)
    requires IsChain(ps, c) && 0 < m < |c|
    ensures c[m - 1] < c[m] < |ps| && Usable(ps, c[m])
  {
    assert Follows(ps, c[m - 1], c[m]);
  }

  /** A packet that is a message by itself is delivered at once, whatever else is going on. */
  lemma SingleIsDelivered(ps: seq<Packet>, n: nat)
    requires Usable(ps, n)
    requires var f := Part(ps, n); (f.msgno == 0 && |f.body| > 0) || (f.msgno == 1 && f.msgcnt == 1)
    ensures var p := ps[n]; After(ps, n + 1).out == After(ps, n).out + [Message(Part(ps, n).body, p.ul, p.time, p.freq, p.mag, [n])]
  {
    hide Header, Part, Step, Expire;
    AfterIs(ps, n);
  }

  predicate EndsWith(c: Chain, n: nat) { |c| > 0 && c[|c| - 1] == n }

  /** A packet delivers at most one message, which ends with it; one that is refused changes nothing at all. */
  lemma DeliversOnlyNow(ps: seq<Packet>, n: nat)
    requires n < |ps|
    ensures !Usable(ps, n) ==> After(ps, n + 1) == After(ps, n)
    ensures var before, out := After(ps, n).out, After(ps, n + 1).out;
      out == before || (|out| == |before| + 1 && out[..|before|] == before && EndsWith(out[|before|].chain, n))
  {
    hide Header, Part, Usable, Step, Expire, LastMatch, Chosen;
    StepIs(ps, After(ps, n), n);
    if Usable(ps, n) { AfterIs(ps, n); }
  }

  /** A complete chain that nothing disturbed is delivered with its last packet, with its data, and nothing else is. */
  lemma UndisturbedIsDelivered(ps: seq<Packet>, c: Chain, x: nat)
    requires Whole(ps, c) && Undisturbed(ps, c, x)
    ensures c[|c| - 1] < |ps|
    ensures var n := c[|c| - 1]; var out := After(ps, n + 1).out;
      |out| > 0 && out[..|out| - 1] == After(ps, n).out && out[|out| - 1].chain == c && Complete(ps, out[|out| - 1])
  {
    hide Header, Part, Usable, Follows, Concatenated, IsChain, Undisturbed, Step;
    var m := |c| - 1;
    InOrder(ps, c, m);
    Held(ps, c, x, m, c[m]);
    NextPlaced(ps, c, x, m);
    RunInv(ps, c[m] + 1);
  }
}
