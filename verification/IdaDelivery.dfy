/** What is not lost by `ida_reassemble`: a chain of bursts that nothing disturbs is delivered. */
module IdaDelivery {
  import opened Chains
  import opened IdaReassembly

  /** The event leaves slot `x` alone: it does not flush it, continue it or evict it. */
  ghost predicate Spares(s: State, e: Event, x: nat)
    requires |s.slots| == IDA_MAX_REASSEMBLY && x < |s.slots|
  {
    match e
    case Flush(now) => now <= s.slots[x].last + 280_000_000
    case Got(b) =>
      || !b.crcOk || |b.payload| == 0
      || if FirstMatch(s.slots, b, 0) < |s.slots| then FirstMatch(s.slots, b, 0) != x
         else b.ctr == 0 && b.cont ==> Chosen(s.slots) != x
  }

  /** A chain that ended. */
  ghost predicate Ended(es: seq<Event>, c: Chain) { IsChain(es, c) && !es[c[|c| - 1]].b.cont }

  /** The slots before event `k`. */
  function SlotsAt(es: seq<Event>, k: nat): (slots: seq<Slot>)
    requires k <= |es|
    ensures |slots| == IDA_MAX_REASSEMBLY
  {
    After(es, k).slots
  }

  /**
   The first burst of the chain starts a message in slot `x`, no slot before `x` takes a later one, and all events
   between that are not of the chain leave the slot alone.
   */
  ghost predicate Undisturbed(es: seq<Event>, c: Chain, x: nat)
    requires IsChain(es, c)
  {
    && x < IDA_MAX_REASSEMBLY
    && FirstMatch(SlotsAt(es, c[0]), es[c[0]].b, 0) == IDA_MAX_REASSEMBLY
    && (|c| > 1 ==> Chosen(SlotsAt(es, c[0])) == x)
    && (forall j, i :: 0 < j < |c| && 0 <= i < x ==> !Continues(SlotsAt(es, c[j])[i], es[c[j]].b))
    && forall j, k :: 0 < j < |c| && c[j - 1] < k < c[j] ==> Spares(After(es, k), es[k], x)
  }

  lemma {:induction false} MatchIs(slots: seq<Slot>, b: Burst, x: nat, i: nat)
    requires i <= x < |slots| && Continues(slots[x], b) && forall k :: i <= k < x ==> !Continues(slots[k], b)
    ensures FirstMatch(slots, b, i) == x
    decreases x - i
  {
    if i < x { MatchIs(slots, b, x, i + 1); }
  }

  lemma SparedStays(s: State, e: Event, n: nat, x: nat)
    requires |s.slots| == IDA_MAX_REASSEMBLY && x < |s.slots| && Spares(s, e, x)
    ensures Step(s, e, n).slots[x] == s.slots[x]
  {
    if e.Got? { ChosenIsSlot(s.slots); }
  }

  /** The slot that holds the first `m` bursts of the chain is continued by the next. */
  lemma NextContinues(es: seq<Event>, c: Chain, s: Slot, m: nat)
    requires IsChain(es, c) && 0 < m < |c| && Collecting(es, s) && s.active && s.chain == c[..m]
    ensures Continues(s, es[c[m]].b)
  {
    assert Follows(es[c[0]].b, es[c[m - 1]].b, es[c[m]].b);
    assert s.chain[0] == c[0] && s.chain[m - 1] == c[m - 1];
  }

  /** So it is the slot that takes it. */
  lemma NextMatches(es: seq<Event>, c: Chain, x: nat, m: nat)
    requires IsChain(es, c) && Undisturbed(es, c, x) && 0 < m < |c|
    requires SlotsAt(es, c[m])[x].active && SlotsAt(es, c[m])[x].chain == c[..m]
    ensures FirstMatch(SlotsAt(es, c[m]), es[c[m]].b, 0) == x
  {
    RunInv(es, c[m]);
    NextContinues(es, c, SlotsAt(es, c[m])[x], m);
    MatchIs(SlotsAt(es, c[m]), es[c[m]].b, x, 0);
  }

  /** One more burst of the chain. */
  lemma HeldGrows(es: seq<Event>, c: Chain, x: nat, m: nat)
    requires IsChain(es, c) && Undisturbed(es, c, x) && 0 < m < |c| - 1
    requires SlotsAt(es, c[m])[x].active && SlotsAt(es, c[m])[x].chain == c[..m]
    ensures SlotsAt(es, c[m] + 1)[x].active && SlotsAt(es, c[m] + 1)[x].chain == c[..m + 1]
  {
    NextMatches(es, c, x, m);
    assert Follows(es[c[0]].b, es[c[m]].b, es[c[m + 1]].b);
    assert Usable(es, c[m]);
    assert c[..m] + [c[m]] == c[..m + 1];
  }

  lemma HeldStarts(es: seq<Event>, c: Chain, x: nat)
    requires IsChain(es, c) && Undisturbed(es, c, x) && |c| > 1
    ensures SlotsAt(es, c[0] + 1)[x].active && SlotsAt(es, c[0] + 1)[x].chain == c[..1]
  {
    assert Follows(es[c[0]].b, es[c[0]].b, es[c[1]].b);
    assert Usable(es, c[0]);
    assert [c[0]] == c[..1];
  }

  lemma Bounds(es: seq<Event>, c: Chain, m: nat)
    requires IsChain(es, c) && 0 < m < |c|
    ensures c[m - 1] < c[m] < |es|
  {
    assert Usable(es, c[m]);
  }

  /** An event between two bursts of the chain leaves the slot alone. */
  lemma HeldOn(es: seq<Event>, c: Chain, x: nat, m: nat, k: nat)
    requires IsChain(es, c) && Undisturbed(es, c, x) && 0 < m < |c| && c[m - 1] < k < c[m] < |es|
    ensures SlotsAt(es, k + 1)[x] == SlotsAt(es, k)[x]
  {
    hide Step, Usable, Follows;
    SparedStays(After(es, k), es[k], k, x);
  }

  /** Between its bursts number `m - 1` and `m` the slot holds the first `m` of the chain. */
  lemma {:induction false} Held(es: seq<Event>, c: Chain, x: nat, m: nat, k: nat)
    requires IsChain(es, c) && Undisturbed(es, c, x) && 0 < m < |c| && c[m - 1] < k <= c[m]
    ensures SlotsAt(es, k)[x].active && SlotsAt(es, k)[x].chain == c[..m]
    decreases k
  {
    hide Usable, Follows, Step, Spares, Undisturbed, IsChain;
    Bounds(es, c, m);
    if k - 1 > c[m - 1] {
      Held(es, c, x, m, k - 1);
      HeldOn(es, c, x, m, k - 1);
    } else if m == 1 {
      HeldStarts(es, c, x);
    } else {
      Bounds(es, c, m - 1);
      Held(es, c, x, m - 1, k - 1);
      HeldGrows(es, c, x, m - 1);
    }
  }

  /** The message of chain `c` is delivered with event `n`, and nothing else is. */
  ghost predicate DeliveredAt(es: seq<Event>, n: nat, c: Chain)
    requires n < |es|
  {
    var before, out := After(es, n).out, After(es, n + 1).out;
    |out| > 0 && out[..|out| - 1] == before && out[|out| - 1].chain == c && Delivered(es, out[|out| - 1])
  }

  /** A flush ends just the messages whose last burst is too long ago, and delivers nothing. */
  lemma FlushEndsStale(es: seq<Event>, n: nat)
    requires n < |es| && es[n].Flush?
    ensures After(es, n + 1).out == After(es, n).out
    ensures forall i :: 0 <= i < IDA_MAX_REASSEMBLY ==>
      var s, s' := SlotsAt(es, n)[i], SlotsAt(es, n + 1)[i];
      if s.active && es[n].now - s.last > 280_000_000 then !s'.active else s' == s
  {
  }

  /** An event delivers at most one message, which ends with it. */
  lemma DeliversOnlyNow(es: seq<Event>, n: nat)
    requires n < |es|
    ensures var before, out := After(es, n).out, After(es, n + 1).out;
      || out == before
      || (|out| == |before| + 1 && out[..|before|] == before
          && DeliveredAt(es, n, out[|before|].chain) && EndsWith(out[|before|].chain, n))
  {
    hide FirstMatch, Delivered, Collecting, Chosen;
    RunInv(es, n + 1);
    ChosenIsSlot(After(es, n).slots);
  }

  predicate EndsWith(c: Chain, n: nat) { |c| > 0 && c[|c| - 1] == n }

  lemma LastDelivers(es: seq<Event>, c: Chain, x: nat, m: nat)
    requires Ended(es, c) && Undisturbed(es, c, x) && 0 < m == |c| - 1
    requires SlotsAt(es, c[m])[x].active && SlotsAt(es, c[m])[x].chain == c[..m]
    ensures DeliveredAt(es, c[m], c)
  {
    NextMatches(es, c, x, m);
    assert Usable(es, c[m]);
    assert c[..m] + [c[m]] == c;
    RunInv(es, c[m] + 1);
    hide Delivered, FirstMatch, Collecting;
  }

  lemma OneDelivers(es: seq<Event>, c: Chain, x: nat)
    requires Ended(es, c) && Undisturbed(es, c, x) && |c| == 1
    ensures DeliveredAt(es, c[0], c)
  {
    assert Usable(es, c[0]);
    assert [c[0]] == c;
    RunInv(es, c[0] + 1);
    hide Delivered, FirstMatch, Collecting;
  }

  /** A chain that ended and that nothing disturbed is delivered with its last burst, with its data, and nothing else is. */
  lemma UndisturbedIsDelivered(es: seq<Event>, c: Chain, x: nat)
    requires Ended(es, c) && Undisturbed(es, c, x)
    ensures c[|c| - 1] < |es| && DeliveredAt(es, c[|c| - 1], c)
  {
    var m := |c| - 1;
    assert Usable(es, c[m]);
    if m == 0 {
      OneDelivers(es, c, x);
    } else {
      assert c[m - 1] < c[m];
      Held(es, c, x, m, c[m]);
      LastDelivers(es, c, x, m);
    }
  }
}
