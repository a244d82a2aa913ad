/** Reassembly of messages from data bursts (`ida_reassemble`, `ida_reassemble_flush` in ida_decode.c), over whole runs. */
module IdaReassembly {
  import opened Options
  import opened Chains

  const IDA_MAX_REASSEMBLY := 16
  const MAX_DATA := 256
  const MAX_OFFSET := 260.0
  const MAX_GAP := 280_000_000
  const UINT64_MAX := 0xFFFF_FFFF_FFFF_FFFF

  /** A decoded burst; `payload` is its first `da_len` bytes. */
  datatype Burst = Burst(time: nat, freq: real, dir: nat, ctr: nat, cont: bool, payload: seq<nat>, crcOk: bool, mag: real)

  /** `chain` names the bursts the slot has taken. */
  datatype Slot = Slot(active: bool, dir: nat, freq: real, last: nat, ctr: nat, data: seq<nat>, chain: Chain)

  /** What the callback gets, and the bursts it came from. */
  datatype Message = Message(data: seq<nat>, time: nat, freq: real, dir: nat, mag: real, chain: Chain)

  datatype Event = Got(b: Burst) | Flush(now: nat)

  datatype State = State(slots: seq<Slot>, out: seq<Message>)

  const EMPTY := Slot(false, 0, 0.0, 0, 0, [], [])

  function Init(): (s: State) { State(seq(IDA_MAX_REASSEMBLY, i => EMPTY), []) }

  function Distance(x: real, y: real): (d: real) { if x < y then y - x else x - y }

  /** The burst continues what the slot has. */
  predicate Continues(s: Slot, b: Burst) {
    && s.active && s.dir == b.dir && Distance(s.freq, b.freq) <= MAX_OFFSET
    && s.last <= b.time <= s.last + MAX_GAP && (s.ctr + 1) % 8 == b.ctr
  }

  /** The first slot from `i` on that the burst continues, or the number of slots. */
  function FirstMatch(slots: seq<Slot>, b: Burst, i: nat): (k: nat)
    requires i <= |slots|
    ensures i <= k <= |slots| && (k < |slots| ==> Continues(slots[k], b))
    decreases |slots| - i
  {
    if i == |slots| || Continues(slots[i], b) then i else FirstMatch(slots, b, i + 1)
  }

  /** Data that does not fit is not taken. */
  function Joined(data: seq<nat>, more: seq<nat>): (r: seq<nat>) {
    if |data| + |more| <= MAX_DATA then data + more else data
  }

  function Extended(s: Slot, b: Burst, n: nat): (s': Slot) {
    s.(data := Joined(s.data, b.payload), last := b.time, ctr := b.ctr, chain := s.chain + [n])
  }

  function Started(b: Burst, n: nat): (s: Slot) { Slot(true, b.dir, b.freq, b.time, b.ctr, b.payload, [n]) }

  /** The slot for a new message: the first that is free among those looked at, else the oldest. */
  function Victim(slots: seq<Slot>, i: nat, best: int, oldest: nat): (k: int)
    requires i <= |slots|
    decreases |slots| - i
  {
    if i == |slots| then best
    else if !slots[i].active then i
    else if slots[i].last < oldest then Victim(slots, i + 1, i, slots[i].last)
    else Victim(slots, i + 1, best, oldest)
  }

  function Chosen(slots: seq<Slot>): (k: int) {
    var k := Victim(slots, 0, -1, UINT64_MAX);
    if k < 0 then 0 else k
  }

  function Closed(s: Slot): (s': Slot) { s.(active := false, chain := []) }

  /** What one burst does, as event `n`. */
  function Reassembled(s: State, b: Burst, n: nat): (s': State)
    requires |s.slots| == IDA_MAX_REASSEMBLY
    ensures |s'.slots| == IDA_MAX_REASSEMBLY
  {
    if !b.crcOk || |b.payload| == 0 then s
    else
      var k := FirstMatch(s.slots, b, 0);
      if k < |s.slots| then
        var x := Extended(s.slots[k], b, n);
        if b.cont then s.(slots := s.slots[k := x])
        else State(s.slots[k := Closed(x)], s.out + [Message(x.data, b.time, x.freq, x.dir, b.mag, x.chain)])
      else if b.ctr == 0 && !b.cont then s.(out := s.out + [Message(b.payload, b.time, b.freq, b.dir, b.mag, [n])])
      else if b.ctr == 0 then
        ChosenIsSlot(s.slots);
        s.(slots := s.slots[Chosen(s.slots) := Started(b, n)])
      else s
  }

  lemma {:induction false} VictimIsSlot(slots: seq<Slot>, i: nat, best: int, oldest: nat)
    requires i <= |slots| && best < |slots|
    ensures Victim(slots, i, best, oldest) < |slots|
    decreases |slots| - i
  {
    if i < |slots| && slots[i].active {
      if slots[i].last < oldest { VictimIsSlot(slots, i + 1, i, slots[i].last); } else { VictimIsSlot(slots, i + 1, best, oldest); }
    }
  }

  lemma ChosenIsSlot(slots: seq<Slot>)
    requires |slots| > 0
    ensures 0 <= Chosen(slots) < |slots|
  {
    VictimIsSlot(slots, 0, -1, UINT64_MAX);
  }

  function Flushed(s: Slot, now: nat): (s': Slot) { if s.active && now > s.last + MAX_GAP then Closed(s) else s }

  function Step(s: State, e: Event, n: nat): (s': State)
    requires |s.slots| == IDA_MAX_REASSEMBLY
    ensures |s'.slots| == IDA_MAX_REASSEMBLY
  {
    match e
    case Got(b) => Reassembled(s, b, n)
    case Flush(now) => s.(slots := seq(|s.slots|, i requires 0 <= i < |s.slots| => Flushed(s.slots[i], now)))
  }

  /** The state after the first `n` events. */
  function After(es: seq<Event>, n: nat): (s: State)
    requires n <= |es|
    ensures |s.slots| == IDA_MAX_REASSEMBLY
  {
    if n == 0 then Init() else Step(After(es, n - 1), es[n - 1], n - 1)
  }

  // ---------- chains ----------

  /** Event `k` is a burst that can be used. */
  predicate Usable(es: seq<Event>, k: nat) { k < |es| && es[k].Got? && es[k].b.crcOk && |es[k].b.payload| > 0 }

  /** `c` follows `b` in a message that `first` began. */
  predicate Follows(first: Burst, b: Burst, c: Burst) {
    && c.dir == first.dir && -260.0 <= c.freq - first.freq <= 260.0
    && b.time <= c.time <= b.time + 280_000_000 && c.ctr == (b.ctr + 1) % 8 && b.cont
  }

  /** Bursts in the order they came: the first has counter zero and each follows the one before. */
  ghost predicate IsChain(es: seq<Event>, c: Chain) {
    && |c| > 0 && (forall j :: 0 <= j < |c| ==> Usable(es, c[j])) && es[c[0]].b.ctr == 0
    && forall j :: 0 < j < |c| ==> c[j - 1] < c[j] && Follows(es[c[0]].b, es[c[j - 1]].b, es[c[j]].b)
  }

  function Payload(es: seq<Event>, k: nat): (d: seq<nat>) { if Usable(es, k) then es[k].b.payload else [] }

  /** The data of a chain, burst by burst. */
  function Collected(es: seq<Event>, c: Chain): (d: seq<nat>) {
    if |c| == 0 then []
    else if |c| == 1 then Payload(es, c[0])
    else Joined(Collected(es, c[..|c| - 1]), Payload(es, c[|c| - 1]))
  }

  /** All of it. */
  function Concatenated(es: seq<Event>, c: Chain): (d: seq<nat>) {
    if |c| == 0 then [] else Concatenated(es, c[..|c| - 1]) + Payload(es, c[|c| - 1])
  }

  /** The payloads of those bursts of the chain that `keep` names. */
  function KeptOnly(es: seq<Event>, c: Chain, keep: seq<bool>): (d: seq<nat>)
    requires |keep| == |c|
  {
    if |c| == 0 then []
    else KeptOnly(es, c[..|c| - 1], keep[..|c| - 1]) + if keep[|c| - 1] then Payload(es, c[|c| - 1]) else []
  }

  /** Burst `j` of the chain is left out just when it would make more than 256 bytes of what was kept before it. */
  ghost predicate KeepsWhatFits(es: seq<Event>, c: Chain, keep: seq<bool>, j: nat)
    requires |keep| == |c| && j < |c|
  {
    keep[j] <==> j == 0 || |KeptOnly(es, c[..j], keep[..j])| + |Payload(es, c[j])| <= 256
  }

  lemma OnePayload(es: seq<Event>, c: Chain)
    requires |c| == 1
    ensures Concatenated(es, c) == Payload(es, c[0])
  {
    assert c[..0] == [];
    assert [] + Payload(es, c[0]) == Payload(es, c[0]);
  }

  /** Up to 256 bytes nothing is left out. */
  lemma {:induction false} CollectsAll(es: seq<Event>, c: Chain)
    requires |Concatenated(es, c)| <= MAX_DATA
    ensures Collected(es, c) == Concatenated(es, c)
  {
    hide Payload;
    if |c| == 1 {
      OnePayload(es, c);
    } else if |c| > 1 {
      CollectsAll(es, c[..|c| - 1]);
    }
  }

  /** What is collected of a longer chain. */
  lemma {:induction false} CollectsWhatFits(es: seq<Event>, c: Chain) returns (keep: seq<bool>)
    ensures |keep| == |c| && Collected(es, c) == KeptOnly(es, c, keep)
    ensures forall j: nat :: j < |c| ==> KeepsWhatFits(es, c, keep, j)
  {
    hide Payload;
    if |c| == 0 {
      keep := [];
    } else {
      var front, last := c[..|c| - 1], Payload(es, c[|c| - 1]);
      var k := CollectsWhatFits(es, front);
      keep := k + [|c| == 1 || |Collected(es, front)| + |last| <= 256];
      assert keep[..|c| - 1] == k;
      forall j: nat | j < |c|
        ensures KeepsWhatFits(es, c, keep, j)
      {
        if j < |c| - 1 {
          assert KeepsWhatFits(es, front, k, j);
          assert c[..j] == front[..j] && keep[..j] == k[..j];
        }
      }
    }
  }

  /** An active slot holds a chain that is to be continued. */
  ghost predicate Collecting(es: seq<Event>, s: Slot) {
    s.active ==>
      && IsChain(es, s.chain) && s.data == Collected(es, s.chain)
      && var first, last := es[s.chain[0]].b, es[s.chain[|s.chain| - 1]].b;
         s.freq == first.freq && s.dir == first.dir && s.last == last.time && s.ctr == last.ctr && last.cont
  }

  /** A delivered message is a chain that ended. */
  ghost predicate Delivered(es: seq<Event>, m: Message) {
    && IsChain(es, m.chain) && m.data == Collected(es, m.chain)
    && var first, last := es[m.chain[0]].b, es[m.chain[|m.chain| - 1]].b;
       m.freq == first.freq && m.dir == first.dir && m.time == last.time && m.mag == last.mag && !last.cont
  }

  function OpenChains(slots: seq<Slot>): (cs: seq<Chain>)
    ensures |cs| == |slots|
  {
    seq(|slots|, i requires 0 <= i < |slots| => slots[i].chain)
  }

  function DoneChains(out: seq<Message>): (cs: seq<Chain>)
    ensures |cs| == |out|
  {
    seq(|out|, i requires 0 <= i < |out| => out[i].chain)
  }

  ghost predicate Inv(es: seq<Event>, s: State, n: nat) {
    && |s.slots| == IDA_MAX_REASSEMBLY
    && (forall i :: 0 <= i < |s.slots| ==> Collecting(es, s.slots[i]))
    && (forall i :: 0 <= i < |s.out| ==> Delivered(es, s.out[i]))
    && NoneTwice(OpenChains(s.slots), DoneChains(s.out), n)
  }

  lemma ChainGrows(es: seq<Event>, s: Slot, n: nat)
    requires Collecting(es, s) && Usable(es, n) && Before(s.chain, n) && Continues(s, es[n].b)
    ensures IsChain(es, s.chain + [n]) && Joined(s.data, es[n].b.payload) == Collected(es, s.chain + [n])
    ensures es[(s.chain + [n])[0]] == es[s.chain[0]]
  {
    var c := s.chain + [n];
    assert c[..|c| - 1] == s.chain;
    forall j | 0 < j < |c|
      ensures c[j - 1] < c[j] && Follows(es[c[0]].b, es[c[j - 1]].b, es[c[j]].b)
    {
      if j < |s.chain| { assert c[j] == s.chain[j] && c[j - 1] == s.chain[j - 1]; }
    }
  }

  lemma OpenUpdate(slots: seq<Slot>, k: nat, x: Slot)
    requires k < |slots|
    ensures OpenChains(slots[k := x]) == OpenChains(slots)[k := x.chain]
  {
  }

  lemma DoneAppend(out: seq<Message>, m: Message)
    ensures DoneChains(out + [m]) == DoneChains(out) + [m.chain]
  {
  }

  lemma MatchKeeps(es: seq<Event>, s: State, n: nat)
    requires Inv(es, s, n) && Usable(es, n) && FirstMatch(s.slots, es[n].b, 0) < |s.slots|
    ensures Inv(es, Reassembled(s, es[n].b, n), n + 1)
  {
    var b := es[n].b;
    var k := FirstMatch(s.slots, b, 0);
    var x := Extended(s.slots[k], b, n);
    assert OpenChains(s.slots)[k] == s.slots[k].chain;
    ChainGrows(es, s.slots[k], n);
    if b.cont {
      OpenUpdate(s.slots, k, x);
      Change(OpenChains(s.slots), DoneChains(s.out), n, k, x.chain);
    } else {
      OpenUpdate(s.slots, k, Closed(x));
      DoneAppend(s.out, Message(x.data, b.time, x.freq, x.dir, b.mag, x.chain));
      Deliver(OpenChains(s.slots), DoneChains(s.out), n, k);
    }
  }

  lemma NewKeeps(es: seq<Event>, s: State, n: nat)
    requires Inv(es, s, n) && Usable(es, n) && FirstMatch(s.slots, es[n].b, 0) == |s.slots| && es[n].b.ctr == 0
    ensures Inv(es, Reassembled(s, es[n].b, n), n + 1)
  {
    var b := es[n].b;
    if b.cont {
      ChosenIsSlot(s.slots);
      var k := Chosen(s.slots);
      OpenUpdate(s.slots, k, Started(b, n));
      Change(OpenChains(s.slots), DoneChains(s.out), n, k, [n]);
    } else {
      DoneAppend(s.out, Message(b.payload, b.time, b.freq, b.dir, b.mag, [n]));
      DeliverOne(OpenChains(s.slots), DoneChains(s.out), n);
    }
  }

  lemma FlushKeeps(es: seq<Event>, s: State, n: nat, now: nat)
    requires Inv(es, s, n)
    ensures Inv(es, Step(s, Flush(now), n), n + 1)
  {
    var s' := Step(s, Flush(now), n);
    Forget(OpenChains(s.slots), OpenChains(s'.slots), DoneChains(s.out), n);
    Pass(OpenChains(s'.slots), DoneChains(s.out), n);
  }

  lemma StepKeeps(es: seq<Event>, s: State, n: nat)
    requires Inv(es, s, n) && n < |es|
    ensures Inv(es, Step(s, es[n], n), n + 1)
  {
    match es[n] {
      case Flush(now) => FlushKeeps(es, s, n, now);
      case Got(b) =>
        if Usable(es, n) && FirstMatch(s.slots, b, 0) < |s.slots| {
          MatchKeeps(es, s, n);
        } else if Usable(es, n) && b.ctr == 0 {
          NewKeeps(es, s, n);
        } else {
          Pass(OpenChains(s.slots), DoneChains(s.out), n);
        }
    }
  }

  /** Over every run: what is delivered are chains, and no burst is used twice. */
  lemma {:induction false} RunInv(es: seq<Event>, n: nat)
    requires n <= |es|
    ensures Inv(es, After(es, n), n)
  {
    if n > 0 {
      RunInv(es, n - 1);
      StepKeeps(es, After(es, n - 1), n - 1);
    }
  }

  /**
   Every delivered message comes from bursts in the order they came, beginning at counter zero and counting on
   modulo 8, in one direction, near the first in frequency and with bounded gaps; up to 256 bytes its data is
   theirs; and no two messages share a burst.
   */
  lemma MessagesAreChains(es: seq<Event>, n: nat)
    requires n <= |es|
    ensures forall m :: m in After(es, n).out ==>
      Delivered(es, m) && (|Concatenated(es, m.chain)| <= 256 ==> m.data == Concatenated(es, m.chain))
    ensures AllApart(DoneChains(After(es, n).out))
  {
    RunInv(es, n);
    forall m | m in After(es, n).out
      ensures Delivered(es, m) && (|Concatenated(es, m.chain)| <= MAX_DATA ==> m.data == Concatenated(es, m.chain))
    {
      if |Concatenated(es, m.chain)| <= MAX_DATA { CollectsAll(es, m.chain); }
    }
  }

  /** The first free slot, or with none free the first of those heard least recently. */
  ghost predicate BestSlot(slots: seq<Slot>, k: nat) {
    k < |slots| &&
    if slots[k].active then
      && (forall j :: 0 <= j < |slots| ==> slots[j].active && slots[k].last <= slots[j].last)
      && forall j :: 0 <= j < k ==> slots[k].last < slots[j].last
    else forall j :: 0 <= j < k ==> slots[j].active
  }

  lemma {:induction false} VictimIs(slots: seq<Slot>, i: nat, best: int, oldest: nat)
    requires i <= |slots| && best < i && (forall j :: 0 <= j < i ==> slots[j].active && oldest <= slots[j].last)
    requires if best < 0 then oldest == UINT64_MAX else slots[best].last == oldest && forall j :: 0 <= j < best ==> oldest < slots[j].last
    ensures var k := Victim(slots, i, best, oldest);
      if k < 0 then forall j :: 0 <= j < |slots| ==> slots[j].active && UINT64_MAX <= slots[j].last else BestSlot(slots, k)
    decreases |slots| - i
  {
    if i < |slots| && slots[i].active {
      if slots[i].last < oldest { VictimIs(slots, i + 1, i, slots[i].last); } else { VictimIs(slots, i + 1, best, oldest); }
    }
  }

  /** A new message takes the first free slot, or else evicts the first of those heard least recently. */
  lemma ChosenIs(slots: seq<Slot>)
    requires |slots| > 0 && forall j :: 0 <= j < |slots| ==> slots[j].last <= UINT64_MAX
    ensures Chosen(slots) >= 0 && BestSlot(slots, Chosen(slots))
  {
    VictimIs(slots, 0, -1, UINT64_MAX);
  }

  // ---------- the program ----------

  class Context {
    const slots: array<Slot>
    ghost var out: seq<Message>

    ghost function Abs(): (s: State)
      reads this, slots
    {
      State(slots[..], out)
    }

    constructor ()
      ensures slots.Length == 16 && fresh(slots) && Abs() == Init()
    {
      slots := new Slot[IDA_MAX_REASSEMBLY](_ => EMPTY);
      out := [];
      new;
      assert slots[..] == Init().slots;
    }

    /** The search for a slot to continue. */
    method FindMatch(b: Burst) returns (k: nat)
      ensures k == FirstMatch(slots[..], b, 0)
    {
      ghost var all := slots[..];
      k := 0;
      while k < slots.Length && !Continues(slots[k], b)
        invariant k <= slots.Length && FirstMatch(all, b, k) == FirstMatch(all, b, 0)
      {
        assert all[k] == slots[k];
        k := k + 1;
      }
      assert k < slots.Length ==> all[k] == slots[k];
    }

    /** The search for a slot to start in. */
    method FindSlot() returns (idx: int)
      ensures idx == Chosen(slots[..])
    {
      ghost var all := slots[..];
      idx := -1;
      var oldest: nat := UINT64_MAX;
      var i := 0;
      while i < slots.Length
        invariant i <= slots.Length && Victim(all, i, idx, oldest) == Victim(all, 0, -1, UINT64_MAX)
      {
        assert all[i] == slots[i];
        if !slots[i].active {
          return i;
        }
        if slots[i].last < oldest {
          oldest := slots[i].last;
          idx := i;
        }
        i := i + 1;
      }
      if idx < 0 { idx := 0; }
    }

    /** `ida_reassemble`; `n` numbers the burst. */
    method Reassemble(b: Burst, n: nat) returns (m: Option<Message>)
      requires slots.Length == IDA_MAX_REASSEMBLY
      modifies `out, slots
      ensures Abs() == Reassembled(old(Abs()), b, n) && out == if m.Some? then old(out) + [m.value] else old(out)
    {
      m := None;
      if !b.crcOk || |b.payload| == 0 {
        return;
      }
      var k := FindMatch(b);
      if k < slots.Length {
        var s := slots[k];
        if |s.data| + |b.payload| <= MAX_DATA {
          s := s.(data := s.data + b.payload);
        }
        s := s.(last := b.time, ctr := b.ctr, chain := s.chain + [n]);
        if !b.cont {
          m := Some(Message(s.data, b.time, s.freq, s.dir, b.mag, s.chain));
          out := out + [m.value];
          s := s.(active := false, chain := []);
        }
        slots[k] := s;
      } else if b.ctr == 0 && !b.cont {
        m := Some(Message(b.payload, b.time, b.freq, b.dir, b.mag, [n]));
        out := out + [m.value];
      } else if b.ctr == 0 {
        var idx := FindSlot();
        ChosenIsSlot(slots[..]);
        slots[idx] := Slot(true, b.dir, b.freq, b.time, b.ctr, b.payload, [n]);
      }
    }

    /** `ida_reassemble_flush` */
    method FlushOld(now: nat, ghost n: nat)
      requires slots.Length == IDA_MAX_REASSEMBLY
      modifies slots
      ensures Abs() == Step(old(Abs()), Flush(now), n)
    {
      for i := 0 to slots.Length
        invariant forall k :: 0 <= k < i ==> slots[k] == Flushed(old(slots[k]), now)
        invariant forall k :: i <= k < slots.Length ==> slots[k] == old(slots[k])
      {
        if slots[i].active && now > slots[i].last + MAX_GAP {
          slots[i] := slots[i].(active := false, chain := []);
        }
      }
    }
  }
}
