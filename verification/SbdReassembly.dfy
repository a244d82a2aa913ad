/** Short burst data from received messages (`sbd_extract`, `sbd_expire` in sbd_acars.c), over whole runs. */
module SbdReassembly {
  import opened Options
  import opened Chains

  const SBD_MAX_MULTI := 8
  const SBD_MAX_DATA := 1024
  const SBD_TIMEOUT_NS := 5_000_000_000
  const UINT64_MAX := 0xFFFF_FFFF_FFFF_FFFF

  type Bytes = seq<nat>

  datatype Packet = Packet(data: Bytes, ul: bool, time: nat, freq: real, mag: real)

  /** What a packet says: its number in a message, how many there are (-1 when it does not say), and its data. */
  datatype Fragment = Fragment(msgno: nat, msgcnt: int, body: Bytes)

  datatype Slot = Slot(active: bool, msgno: nat, msgcnt: int, ul: bool, time: nat, freq: real, mag: real, data: Bytes, chain: Chain)

  datatype Message = Message(data: Bytes, ul: bool, time: nat, freq: real, mag: real, chain: Chain)

  datatype State = State(slots: seq<Slot>, out: seq<Message>)

  const EMPTY := Slot(false, 0, 0, false, 0, 0.0, 0.0, [], [])

  function Init(): (s: State) { State(seq(SBD_MAX_MULTI, i => EMPTY), []) }

  // ---------- headers ----------

  predicate IsSbd(d: Bytes, ul: bool)
    requires |d| >= 5
  {
    if d[0] == 0x76 && d[1] != 5 then if ul then 0x0c <= d[1] <= 0x0e else 0x08 <= d[1] <= 0x0b
    else d[0] == 0x06 && d[1] == 0x00 && d[2] in {0x00, 0x10, 0x20, 0x40, 0x50, 0x70}
  }

  /** The part of `sbd_extract` that reads the headers. */
  function Header(d: Bytes, ul: bool): (f: Option<Fragment>) {
    if |d| < 5 || !IsSbd(d, ul) then None
    else if d[0] == 0x06 && d[1] == 0x00 then
      var e := d[2..];
      if |e| < 30 || e[0] != 0x20 then None
      else Some(Fragment(if e[15] == 0 then 0 else 1, e[15], e[29..]))
    else if d[1] == 0x08 then
      var e := d[2..];
      var prehdr := if |e| > 0 && e[0] == 0x20 then 5 else 7;
      if |e| < 5 || |e| < prehdr then None else Body(e[prehdr..], ul, e[3])
    else Body(d[2..], ul, -1)
  }

  function Body(d: Bytes, ul: bool, msgcnt: int): (f: Option<Fragment>) {
    var e := if ul && |d| >= 3 && (d[0] == 0x50 || d[0] == 0x51) then d[3..] else d;
    if |e| > 3 && e[0] == 0x10 then
      if |e| - 3 < e[1] then None else Some(Fragment(e[2], msgcnt, e[3..3 + e[1]]))
    else Some(Fragment(0, msgcnt, e))
  }

  // ---------- reassembly ----------

  function Closed(s: Slot): (s': Slot) { s.(active := false, chain := []) }

  function Expired(s: Slot, now: nat): (s': Slot) { if s.active && now > s.time + SBD_TIMEOUT_NS then Closed(s) else s }

  /** `sbd_expire` */
  function Expire(slots: seq<Slot>, now: nat): (r: seq<Slot>)
    ensures |r| == |slots|
  {
    seq(|slots|, i requires 0 <= i < |slots| => Expired(slots[i], now))
  }

  /** The first free slot, or -1. */
  function FirstFree(slots: seq<Slot>, i: nat): (k: int)
    requires i <= |slots|
    ensures k < |slots|
    decreases |slots| - i
  {
    if i == |slots| then -1 else if !slots[i].active then i else FirstFree(slots, i + 1)
  }

  function Oldest(slots: seq<Slot>, i: nat, best: int, oldest: nat): (k: int)
    requires i <= |slots| && best < |slots|
    ensures k < |slots|
    decreases |slots| - i
  {
    if i == |slots| then best
    else if slots[i].time < oldest then Oldest(slots, i + 1, i, slots[i].time)
    else Oldest(slots, i + 1, best, oldest)
  }

  function Chosen(slots: seq<Slot>): (k: nat)
    requires |slots| > 0
    ensures k < |slots|
  {
    var free := FirstFree(slots, 0);
    var k := if free < 0 then Oldest(slots, 0, -1, UINT64_MAX) else free;
    if k < 0 then 0 else k
  }

  predicate Continues(s: Slot, f: Fragment, ul: bool) { s.active && s.ul == ul && f.msgno == s.msgno + 1 }

  /** The last slot below `i` that the fragment continues, or -1. */
  function LastMatch(slots: seq<Slot>, f: Fragment, ul: bool, i: nat): (k: int)
    requires i <= |slots|
    ensures k < i && (0 <= k ==> Continues(slots[k], f, ul))
  {
    if i == 0 then -1 else if Continues(slots[i - 1], f, ul) then i - 1 else LastMatch(slots, f, ul, i - 1)
  }

  /** What the data has room for. */
  function Cut(d: Bytes): (r: Bytes) { if |d| > SBD_MAX_DATA then d[..SBD_MAX_DATA] else d }

  function Taken(data: Bytes, more: Bytes): (r: Bytes) {
    var space := SBD_MAX_DATA - |data|;
    var copy := if |more| > space then space else |more|;
    if copy > 0 then data + more[..copy] else data
  }

  function Started(f: Fragment, p: Packet, n: nat): (s: Slot) {
    Slot(true, f.msgno, f.msgcnt, p.ul, p.time, p.freq, p.mag, Cut(f.body), [n])
  }

  function Extended(s: Slot, f: Fragment, p: Packet, n: nat): (s': Slot) {
    s.(msgno := f.msgno, time := p.time, data := Taken(s.data, f.body), chain := s.chain + [n])
  }

  /** `sbd_extract` on packet `n` of a run. */
  function Step(s: State, p: Packet, n: nat): (s': State)
    requires |s.slots| == SBD_MAX_MULTI
    ensures |s'.slots| == SBD_MAX_MULTI
  {
    match Header(p.data, p.ul)
    case None => s
    case Some(f) => Placed(s.(slots := Expire(s.slots, p.time)), f, p, n)
  }

  function Placed(s: State, f: Fragment, p: Packet, n: nat): (s': State)
    requires |s.slots| == SBD_MAX_MULTI
    ensures |s'.slots| == SBD_MAX_MULTI
  {
    if f.msgno == 0 then
      if |f.body| > 0 then s.(out := s.out + [Message(f.body, p.ul, p.time, p.freq, p.mag, [n])]) else s
    else if f.msgcnt == 1 && f.msgno == 1 then s.(out := s.out + [Message(f.body, p.ul, p.time, p.freq, p.mag, [n])])
    else if f.msgcnt > 1 then s.(slots := s.slots[Chosen(s.slots) := Started(f, p, n)])
    else if f.msgno > 1 then
      var k := LastMatch(s.slots, f, p.ul, |s.slots|);
      if k < 0 then s
      else
        var x := Extended(s.slots[k], f, p, n);
        if f.msgno == x.msgcnt then State(s.slots[k := Closed(x)], s.out + [Message(x.data, p.ul, p.time, x.freq, x.mag, x.chain)])
        else s.(slots := s.slots[k := x])
    else s
  }

  function After(ps: seq<Packet>, n: nat): (s: State)
    requires n <= |ps|
    ensures |s.slots| == SBD_MAX_MULTI
  {
    if n == 0 then Init() else Step(After(ps, n - 1), ps[n - 1], n - 1)
  }

  // ---------- chains ----------

  predicate Usable(ps: seq<Packet>, k: nat) { k < |ps| && Header(ps[k].data, ps[k].ul).Some? }

  function Part(ps: seq<Packet>, k: nat): (f: Fragment) {
    if Usable(ps, k) then Header(ps[k].data, ps[k].ul).value else Fragment(0, 0, [])
  }

  /** Packet `k` continues packet `j` of the same message. */
  predicate Follows(ps: seq<Packet>, j: nat, k: nat) {
    && j < k < |ps| && ps[k].ul == ps[j].ul && ps[k].time <= ps[j].time + 5_000_000_000
    && Part(ps, k).msgno == Part(ps, j).msgno + 1
  }

  /** Packets in the order they came, the first announcing how many there are, numbered one after the other. */
  ghost predicate IsChain(ps: seq<Packet>, c: Chain) {
    && |c| > 0 && (forall j :: 0 <= j < |c| ==> Usable(ps, c[j])) && Part(ps, c[0]).msgcnt > 1
    && forall j :: 0 < j < |c| ==> Follows(ps, c[j - 1], c[j])
  }

  function Concatenated(ps: seq<Packet>, c: Chain): (d: Bytes) {
    if |c| == 0 then [] else Concatenated(ps, c[..|c| - 1]) + Part(ps, c[|c| - 1]).body
  }

  ghost predicate Collecting(ps: seq<Packet>, s: Slot) {
    s.active ==>
      && IsChain(ps, s.chain) && s.data == Cut(Concatenated(ps, s.chain)) && s.msgcnt == Part(ps, s.chain[0]).msgcnt
      && s.freq == ps[s.chain[0]].freq && s.mag == ps[s.chain[0]].mag
      && var last := s.chain[|s.chain| - 1];
         s.msgno == Part(ps, last).msgno && s.ul == ps[last].ul && s.time == ps[last].time
  }

  /** A message of several packets ends with the packet whose number was announced. */
  ghost predicate Complete(ps: seq<Packet>, m: Message) {
    && IsChain(ps, m.chain) && |m.chain| > 1 && m.data == Cut(Concatenated(ps, m.chain))
    && m.freq == ps[m.chain[0]].freq && m.mag == ps[m.chain[0]].mag
    && var last := m.chain[|m.chain| - 1];
       Part(ps, last).msgno == Part(ps, m.chain[0]).msgcnt && m.ul == ps[last].ul && m.time == ps[last].time
  }

  /** A message that is one packet. */
  ghost predicate Single(ps: seq<Packet>, m: Message) {
    && |m.chain| == 1 && Usable(ps, m.chain[0])
    && var f, p := Part(ps, m.chain[0]), ps[m.chain[0]];
       ((f.msgno == 0 && |f.body| > 0) || (f.msgno == 1 && f.msgcnt == 1)) && m.data == f.body && m.ul == p.ul && m.time == p.time
       && m.freq == p.freq && m.mag == p.mag
  }

  function OpenChains(slots: seq<Slot>): (cs: seq<Chain>)
    ensures |cs| == |slots|
  {
    seq(|slots|, i requires 0 <= i < |slots| => slots[i].chain)
  }

  function DoneChains(out: seq<Message>): (cs: seq<Chain>)
    ensures |cs| == |out|
  {
    seq(|out|, i requires 0 <= i < |out| => out[i].chain)
  }

  ghost predicate Inv(ps: seq<Packet>, s: State, n: nat) {
    && |s.slots| == SBD_MAX_MULTI
    && (forall i :: 0 <= i < |s.slots| ==> Collecting(ps, s.slots[i]))
    && (forall i :: 0 <= i < |s.out| ==> Complete(ps, s.out[i]) || Single(ps, s.out[i]))
    && NoneTwice(OpenChains(s.slots), DoneChains(s.out), n)
  }

  lemma CutTaken(d: Bytes, more: Bytes)
    ensures Taken(Cut(d), more) == Cut(d + more)
  {
  }

  lemma ChainGrows(ps: seq<Packet>, s: Slot, n: nat)
    requires Collecting(ps, s) && Usable(ps, n) && Before(s.chain, n) && Continues(s, Part(ps, n), ps[n].ul)
    requires ps[n].time <= s.time + SBD_TIMEOUT_NS
    ensures IsChain(ps, s.chain + [n]) && Taken(s.data, Part(ps, n).body) == Cut(Concatenated(ps, s.chain + [n]))
  {
    var c := s.chain + [n];
    assert c[..|c| - 1] == s.chain;
    CutTaken(Concatenated(ps, s.chain), Part(ps, n).body);
    forall j | 0 < j < |c|
      ensures Follows(ps, c[j - 1], c[j])
    {
      if j < |s.chain| { assert c[j] == s.chain[j] && c[j - 1] == s.chain[j - 1]; }
    }
  }

  /** The numbers run on from the first packet's. */
  lemma {:induction false} Numbered(ps: seq<Packet>, c: Chain, j: nat)
    requires IsChain(ps, c) && j < |c|
    ensures Part(ps, c[j]).msgno == Part(ps, c[0]).msgno + j && ps[c[j]].ul == ps[c[0]].ul
  {
    if j > 0 { Numbered(ps, c, j - 1); }
  }

  lemma OpenUpdate(slots: seq<Slot>, k: nat, x: Slot)
    requires k < |slots|
    ensures OpenChains(slots[k := x]) == OpenChains(slots)[k := x.chain]
  {
  }

  lemma DoneAppend(out: seq<Message>, m: Message)
    ensures DoneChains(out + [m]) == DoneChains(out) + [m.chain]
  {
  }

  lemma ExpireKeeps(ps: seq<Packet>, s: State, n: nat, now: nat)
    requires Inv(ps, s, n)
    ensures Inv(ps, s.(slots := Expire(s.slots, now)), n)
  {
    Forget(OpenChains(s.slots), OpenChains(Expire(s.slots, now)), DoneChains(s.out), n);
  }

  ghost predicate AllRecent(slots: seq<Slot>, now: nat) {
    forall i :: 0 <= i < |slots| && slots[i].active ==> now <= slots[i].time + SBD_TIMEOUT_NS
  }

  lemma ExtendKeeps(ps: seq<Packet>, s: State, n: nat, k: nat)
    requires Inv(ps, s, n) && Usable(ps, n) && AllRecent(s.slots, ps[n].time) && k < |s.slots|
    requires Continues(s.slots[k], Part(ps, n), ps[n].ul)
    ensures var x := Extended(s.slots[k], Part(ps, n), ps[n], n);
      Inv(ps, if Part(ps, n).msgno == x.msgcnt
              then State(s.slots[k := Closed(x)], s.out + [Message(x.data, ps[n].ul, ps[n].time, x.freq, x.mag, x.chain)])
              else s.(slots := s.slots[k := x]), n + 1)
  {
    var p, f := ps[n], Part(ps, n);
    var x := Extended(s.slots[k], f, p, n);
    assert OpenChains(s.slots)[k] == s.slots[k].chain;
    ChainGrows(ps, s.slots[k], n);
    if f.msgno == x.msgcnt {
      OpenUpdate(s.slots, k, Closed(x));
      DoneAppend(s.out, Message(x.data, p.ul, p.time, x.freq, x.mag, x.chain));
      Deliver(OpenChains(s.slots), DoneChains(s.out), n, k);
    } else {
      OpenUpdate(s.slots, k, x);
      Change(OpenChains(s.slots), DoneChains(s.out), n, k, x.chain);
    }
  }

  lemma StartedCollects(ps: seq<Packet>, n: nat)
    requires Usable(ps, n) && Part(ps, n).msgcnt > 1
    ensures Collecting(ps, Started(Part(ps, n), ps[n], n))
  {
    hide Header;
    assert [n][..0] == [];
    assert [] + Part(ps, n).body == Part(ps, n).body;
    assert Concatenated(ps, [n]) == Part(ps, n).body;
  }

  lemma StepIs(ps: seq<Packet>, s: State, n: nat)
    requires |s.slots| == SBD_MAX_MULTI && n < |ps|
    ensures Step(s, ps[n], n) ==
      if Usable(ps, n) then Placed(s.(slots := Expire(s.slots, ps[n].time)), Part(ps, n), ps[n], n) else s
  {
    hide Header, Placed, Expire;
  }

  lemma PlacedKeeps(ps: seq<Packet>, s: State, n: nat)
    requires Inv(ps, s, n) && Usable(ps, n) && AllRecent(s.slots, ps[n].time)
    ensures Inv(ps, Placed(s, Part(ps, n), ps[n], n), n + 1)
  {
    hide Header, Part, Collecting, Complete, Concatenated;
    var p, f, k := ps[n], Part(ps, n), LastMatch(s.slots, Part(ps, n), ps[n].ul, |s.slots|);
    if (f.msgno == 0 && |f.body| > 0) || (f.msgcnt == 1 && f.msgno == 1) {
      DoneAppend(s.out, Message(f.body, p.ul, p.time, p.freq, p.mag, [n]));
      DeliverOne(OpenChains(s.slots), DoneChains(s.out), n);
      assert Single(ps, Message(f.body, p.ul, p.time, p.freq, p.mag, [n]));
    } else if f.msgno > 0 && f.msgcnt > 1 {
      var c := Chosen(s.slots);
      OpenUpdate(s.slots, c, Started(f, p, n));
      Change(OpenChains(s.slots), DoneChains(s.out), n, c, [n]);
      StartedCollects(ps, n);
    } else if f.msgno > 1 && k >= 0 {
      ExtendKeeps(ps, s, n, k);
    } else {
      Pass(OpenChains(s.slots), DoneChains(s.out), n);
    }
  }

  /** Over every run: what is delivered are complete chains, and no packet is used twice. */
  lemma {:induction false} RunInv(ps: seq<Packet>, n: nat)
    requires n <= |ps|
    ensures Inv(ps, After(ps, n), n)
  {
    if n > 0 {
      var s, p := After(ps, n - 1), ps[n - 1];
      RunInv(ps, n - 1);
      StepIs(ps, s, n - 1);
      hide Header, Placed, Usable, Part, Step;
      if Usable(ps, n - 1) {
        ExpireKeeps(ps, s, n - 1, p.time);
        PlacedKeeps(ps, s.(slots := Expire(s.slots, p.time)), n - 1);
      } else {
        Pass(OpenChains(s.slots), DoneChains(s.out), n - 1);
      }
    }
  }

  /** A message's packets, when it has more than one: numbered on from the first to the count the first announced. */
  lemma MessagesAreChains(ps: seq<Packet>, n: nat, m: Message)
    requires n <= |ps| && m in After(ps, n).out && |m.chain| > 1
    ensures Complete(ps, m)
    ensures m.data <= Concatenated(ps, m.chain)
    ensures if |Concatenated(ps, m.chain)| <= 1024 then m.data == Concatenated(ps, m.chain) else |m.data| == 1024
    ensures forall j :: 0 <= j < |m.chain| ==>
      Part(ps, m.chain[j]).msgno == Part(ps, m.chain[0]).msgno + j && ps[m.chain[j]].ul == m.ul
    ensures AllApart(DoneChains(After(ps, n).out))
  {
    RunInv(ps, n);
    forall j | 0 <= j < |m.chain|
      ensures Part(ps, m.chain[j]).msgno == Part(ps, m.chain[0]).msgno + j && ps[m.chain[j]].ul == m.ul
    {
      Numbered(ps, m.chain, j);
      Numbered(ps, m.chain, |m.chain| - 1);
    }
  }

  /** The first free slot, or with none free the first of those heard least recently. */
  ghost predicate BestSlot(slots: seq<Slot>, k: nat) {
    k < |slots| &&
    if slots[k].active then
      && (forall j :: 0 <= j < |slots| ==> slots[j].active && slots[k].time <= slots[j].time)
      && forall j :: 0 <= j < k ==> slots[k].time < slots[j].time
    else forall j :: 0 <= j < k ==> slots[j].active
  }

  lemma {:induction false} FreeIs(slots: seq<Slot>, i: nat)
    requires i <= |slots| && forall j :: 0 <= j < i ==> slots[j].active
    ensures var k := FirstFree(slots, i);
      if k < 0 then forall j :: 0 <= j < |slots| ==> slots[j].active else !slots[k].active && forall j :: 0 <= j < k ==> slots[j].active
    decreases |slots| - i
  {
    if i < |slots| && slots[i].active { FreeIs(slots, i + 1); }
  }

  lemma {:induction false} OldestIs(slots: seq<Slot>, i: nat, best: int, oldest: nat)
    requires i <= |slots| && best < i && (forall j :: 0 <= j < i ==> oldest <= slots[j].time)
    requires if best < 0 then oldest == UINT64_MAX else slots[best].time == oldest && forall j :: 0 <= j < best ==> oldest < slots[j].time
    ensures var k := Oldest(slots, i, best, oldest);
      if k < 0 then forall j :: 0 <= j < |slots| ==> UINT64_MAX <= slots[j].time
      else (forall j :: 0 <= j < |slots| ==> slots[k].time <= slots[j].time) && forall j :: 0 <= j < k ==> slots[k].time < slots[j].time
    decreases |slots| - i
  {
    if i < |slots| {
      if slots[i].time < oldest { OldestIs(slots, i + 1, i, slots[i].time); } else { OldestIs(slots, i + 1, best, oldest); }
    }
  }

  /** A new message takes the first free slot, or else evicts the first of those heard least recently. */
  lemma ChosenIs(slots: seq<Slot>)
    requires |slots| > 0 && forall j :: 0 <= j < |slots| ==> slots[j].time <= UINT64_MAX
    ensures BestSlot(slots, Chosen(slots))
  {
    FreeIs(slots, 0);
    OldestIs(slots, 0, -1, UINT64_MAX);
  }

  // ---------- the program ----------

  class Multi {
    const slots: array<Slot>
    ghost var out: seq<Message>

    ghost function Abs(): (s: State)
      reads this, slots
    {
      State(slots[..], out)
    }

    constructor ()
      ensures slots.Length == 8 && fresh(slots) && Abs() == Init()
    {
      slots := new Slot[SBD_MAX_MULTI](_ => EMPTY);
      out := [];
      new;
      assert slots[..] == Init().slots;
    }

    /** `sbd_expire` */
    method ExpireSlots(now: nat)
      modifies slots
      ensures slots[..] == Expire(old(slots[..]), now)
    {
      for i := 0 to slots.Length
        invariant forall k :: 0 <= k < i ==> slots[k] == Expired(old(slots[k]), now)
        invariant forall k :: i <= k < slots.Length ==> slots[k] == old(slots[k])
      {
        if slots[i].active && now > slots[i].time + SBD_TIMEOUT_NS {
          slots[i] := slots[i].(active := false, chain := []);
        }
      }
    }

    method FindFree() returns (idx: int)
      ensures idx == FirstFree(slots[..], 0)
    {
      ghost var all := slots[..];
      var i := 0;
      while i < slots.Length
        invariant i <= slots.Length && FirstFree(all, i) == FirstFree(all, 0)
      {
        assert all[i] == slots[i];
        if !slots[i].active {
          return i;
        }
        i := i + 1;
      }
      return -1;
    }

    method FindOldest() returns (idx: int)
      ensures idx == Oldest(slots[..], 0, -1, UINT64_MAX)
    {
      ghost var all := slots[..];
      idx := -1;
      var oldest: nat := UINT64_MAX;
      for i := 0 to slots.Length
        invariant idx < slots.Length && Oldest(all, i, idx, oldest) == Oldest(all, 0, -1, UINT64_MAX)
      {
        assert all[i] == slots[i];
        if slots[i].time < oldest {
          oldest := slots[i].time;
          idx := i;
        }
      }
    }

    /** The search, from the last slot down, for a message to continue. */
    method FindMatch(f: Fragment, ul: bool) returns (k: int)
      ensures k == LastMatch(slots[..], f, ul, slots.Length)
    {
      ghost var all := slots[..];
      k := slots.Length - 1;
      while k >= 0
        invariant -1 <= k < slots.Length && LastMatch(all, f, ul, k + 1) == LastMatch(all, f, ul, slots.Length)
      {
        assert all[k] == slots[k];
        if Continues(slots[k], f, ul) {
          return k;
        }
        k := k - 1;
      }
    }

    /** `sbd_extract`, once the headers are read. */
    method Place(f: Fragment, p: Packet, n: nat)
      requires slots.Length == SBD_MAX_MULTI
      modifies `out, slots
      ensures Abs() == Placed(old(Abs()), f, p, n)
    {
      if f.msgno == 0 {
        if |f.body| > 0 {
          out := out + [Message(f.body, p.ul, p.time, p.freq, p.mag, [n])];
        }
      } else if f.msgcnt == 1 && f.msgno == 1 {
        out := out + [Message(f.body, p.ul, p.time, p.freq, p.mag, [n])];
      } else if f.msgcnt > 1 {
        var idx := FindFree();
        if idx < 0 {
          idx := FindOldest();
        }
        if idx < 0 { idx := 0; }
        slots[idx] := Started(f, p, n);
      } else if f.msgno > 1 {
        var k := FindMatch(f, p.ul);
        if k >= 0 {
          var s := slots[k];
          var space := SBD_MAX_DATA - |s.data|;
          var copy := if |f.body| > space then space else |f.body|;
          if copy > 0 {
            s := s.(data := s.data + f.body[..copy]);
          }
          s := s.(msgno := f.msgno, time := p.time, chain := s.chain + [n]);
          if f.msgno == s.msgcnt {
            out := out + [Message(s.data, p.ul, p.time, s.freq, s.mag, s.chain)];
            s := s.(active := false, chain := []);
          }
          slots[k] := s;
        }
      }
    }

    /** `sbd_extract`; `n` numbers the packet. */
    method Extract(p: Packet, n: nat)
      requires slots.Length == SBD_MAX_MULTI
      modifies `out, slots
      ensures Abs() == Step(old(Abs()), p, n)
    {
      hide Header, Placed;
      var f := ReadHeaders(p.data, p.ul);
      if f.Some? {
        ExpireSlots(p.time);
        Place(f.value, p, n);
      }
    }
  }

  // ---------- reading headers in place ----------

  /** The markers. */
  method CheckMarkers(data: Bytes, ul: bool) returns (isSbd: bool)
    requires |data| >= 5
    ensures isSbd == IsSbd(data, ul)
  {
    isSbd := false;
    if data[0] == 0x76 && data[1] != 5 {
      if ul {
        if data[1] >= 0x0c && data[1] <= 0x0e { isSbd := true; }
      } else {
        if data[1] >= 0x08 && data[1] <= 0x0b { isSbd := true; }
      }
    } else if data[0] == 0x06 && data[1] == 0x00 {
      if data[2] == 0x00 || data[2] == 0x10 || data[2] == 0x20 || data[2] == 0x40 || data[2] == 0x50 || data[2] == 0x70 {
        isSbd := true;
      }
    }
  }

  /** The headers of `sbd_extract`, read with a pointer that moves over them and the length left. */
  method ReadHeaders(data: Bytes, ul: bool) returns (f: Option<Fragment>)
    ensures f == Header(data, ul)
  {
    var at, len := 0, |data|;
    if len < 5 {
      return None;
    }
    var isSbd := CheckMarkers(data, ul);
    if !isSbd {
      return None;
    }
    var typ0, typ1 := data[0], data[1];
    at, len := at + 2, len - 2;
    var msgcnt: int := -1;
    if typ0 == 0x06 && typ1 == 0x00 {
      if len < 30 || data[at] != 0x20 {
        return None;
      }
      msgcnt := data[at + 15];
      assert data[2..][29..] == data[at + 29..at + 29 + (len - 29)];
      return Some(Fragment(if msgcnt == 0 then 0 else 1, msgcnt, data[at + 29..at + 29 + (len - 29)]));
    }
    if typ1 == 0x08 {
      if len < 5 {
        return None;
      }
      var prehdrLen := if data[at] == 0x26 then 7 else if data[at] == 0x20 then 5 else 7;
      if len < prehdrLen {
        return None;
      }
      msgcnt := data[at + 3];
      assert data[2..][prehdrLen..] == data[at + prehdrLen..];
      at, len := at + prehdrLen, len - prehdrLen;
    }
    f := ReadBody(data, at, len, ul, msgcnt);
  }

  /** The rest of them, from the optional mobile header on. */
  method ReadBody(data: Bytes, start: nat, length: nat, ul: bool, msgcnt: int) returns (f: Option<Fragment>)
    requires start + length == |data|
    ensures f == Body(data[start..], ul, msgcnt)
  {
    var at, len := start, length;
    if ul && len >= 3 && (data[at] == 0x50 || data[at] == 0x51) {
      assert data[start..][3..] == data[at + 3..];
      at, len := at + 3, len - 3;
    }
    if len == 0 {
      assert data[at..] == data[at..at];
      return Some(Fragment(0, msgcnt, data[at..at]));
    } else if len > 3 && data[at] == 0x10 {
      var pktLen, msgno := data[at + 1], data[at + 2];
      ghost var e := data[at..];
      at, len := at + 3, len - 3;
      if len < pktLen {
        return None;
      }
      if len > pktLen {
        len := pktLen;
      }
      assert data[at..at + len] == e[3..3 + e[1]];
      return Some(Fragment(msgno, msgcnt, data[at..at + len]));
    } else {
      assert data[at..] == data[at..at + len];
      return Some(Fragment(0, msgcnt, data[at..at + len]));
    }
  }
}
