/**
 One fair lock as a value: what each critical section of fair_lock.h does to it, with the history
 of its requests.  Requests are numbered in order of arrival; `owner` and `handoff` name who has the
 lock and who was signalled to take it, which the program does not store.
 */
module LockValue {
  import opened Options
  import FL = FairLock

  type Tid = nat

  /** A lock request that had to wait, or was granted at once. */
  datatype Request = Request(ticket: nat, tid: Tid, weak: bool)

  datatype Lock = Lock(
    queue: seq<Request>,
    acquired: bool,
    waiting: int,
    blockWeak: bool,
    owner: Option<Tid>,
    handoff: Option<Request>,
    arrivals: nat,
    served: seq<nat>,
    abandoned: set<nat>)

  const INITIAL := Lock([], false, 0, false, None, None, 0, [], {})

  function Weak(q: seq<Request>): (w: seq<bool>)
    ensures |w| == |q|
  {
    seq(|q|, i requires 0 <= i < |q| => q[i].weak)
  }

  /** The queue after `abandone_weak_locks`. */
  function Kept(q: seq<Request>): (k: seq<Request>) {
    FL.Strong(q, Weak(q))
  }

  function Tickets(q: seq<Request>): (s: seq<nat>)
    ensures |s| == |q|
  {
    seq(|q|, i requires 0 <= i < |q| => q[i].ticket)
  }

  predicate IsFree(l: Lock) { !l.acquired && l.waiting <= 0 }

  /** `_fair_lock_lock`, entered by `tid` with weak locks not in its way. */
  function Enter(l: Lock, tid: Tid, weak: bool): (l': Lock) {
    if IsFree(l)
    then l.(acquired := true, owner := Some(tid), served := l.served + [l.arrivals], arrivals := l.arrivals + 1)
    else l.(queue := l.queue + [Request(l.arrivals, tid, weak)], waiting := l.waiting + 1, arrivals := l.arrivals + 1)
  }

  /** `_fair_lock_lock`, resumed by the thread the lock was handed to. */
  function Take(l: Lock): (l': Lock)
    requires l.handoff.Some?
  {
    l.(acquired := true, waiting := l.waiting - 1, owner := Some(l.handoff.value.tid),
       served := l.served + [l.handoff.value.ticket], handoff := None)
  }

  /** `fair_lock_unlock` */
  function Release(l: Lock): (l': Lock) {
    if l.queue == []
    then l.(acquired := false, owner := None)
    else l.(acquired := false, owner := None, handoff := Some(l.queue[0]), queue := l.queue[1..])
  }

  /** `fair_lock_block_weak_locks` */
  function Block(l: Lock): (l': Lock) {
    l.(blockWeak := true, queue := Kept(l.queue), waiting := l.waiting - (|l.queue| - |Kept(l.queue)|),
       abandoned := l.abandoned + DroppedTickets(l.queue))
  }

  function DroppedTickets(q: seq<Request>): (s: set<nat>) {
    set i | 0 <= i < |q| && q[i].weak :: q[i].ticket
  }

  /** `fair_lock_allow_weak_locks` */
  function Allow(l: Lock): (l': Lock) {
    l.(blockWeak := false)
  }

  // ---------- fairness ----------

  /** The requests numbered below `n` that were not abandoned, in order of arrival. */
  function Standing(n: nat, abandoned: set<nat>): (s: seq<nat>)
    ensures forall i :: 0 <= i < |s| ==> s[i] < n && s[i] !in abandoned
  {
    if n == 0 then [] else Standing(n - 1, abandoned) + if n - 1 in abandoned then [] else [n - 1]
  }

  function InFlight(l: Lock): (s: seq<nat>) {
    if l.handoff.Some? then [l.handoff.value.ticket] else []
  }

  /**
   The counter the program keeps counts the requests not served; the lock is not handed over while it
   is owned; and a lock that is free and not being handed over has no queue.
   */
  ghost predicate Counted(l: Lock) {
    && l.waiting == |l.queue| + (if l.handoff.Some? then 1 else 0)
    && l.acquired == l.owner.Some?
    && (l.acquired ==> l.handoff.None?)
    && (l.queue != [] ==> l.acquired || l.handoff.Some?)
  }

  /**
   The requests served, then the one being handed the lock, then those queued are all requests in
   order of arrival, without exactly the abandoned ones.
   */
  ghost predicate Ordered(l: Lock) {
    && Standing(l.arrivals, l.abandoned) == l.served + InFlight(l) + Tickets(l.queue)
    && (forall k :: k in l.abandoned ==> k < l.arrivals)
  }


  ghost predicate Increasing(s: seq<nat>) {
    forall i, j :: 0 <= i < j < |s| ==> s[i] < s[j]
  }

  lemma {:induction false} StandingIncreases(n: nat, abandoned: set<nat>)
    ensures Increasing(Standing(n, abandoned))
  {
    if 0 < n {
      StandingIncreases(n - 1, abandoned);
      var before := Standing(n - 1, abandoned);
      assert Standing(n, abandoned) == before + if n - 1 in abandoned then [] else [n - 1];
      assert forall i :: 0 <= i < |before| ==> before[i] < n - 1;
    }
  }

  lemma EnterOrdered(l: Lock, tid: Tid, weak: bool)
    requires Counted(l) && Ordered(l)
    ensures Ordered(Enter(l, tid, weak))
  {
    var l' := Enter(l, tid, weak);
    assert l.arrivals !in l.abandoned;
    if IsFree(l) {
      assert l.queue == [] && l.handoff.None?;
      assert l'.served + InFlight(l') + Tickets(l'.queue) == l.served + InFlight(l) + Tickets(l.queue) + [l.arrivals];
    } else {
      assert Tickets(l'.queue) == Tickets(l.queue) + [l.arrivals];
    }
  }

  lemma TakeOrdered(l: Lock)
    requires Ordered(l) && l.handoff.Some?
    ensures Ordered(Take(l))
  {
  }

  lemma ReleaseOrdered(l: Lock)
    requires Counted(l) && Ordered(l) && l.acquired
    ensures Ordered(Release(l))
  {
    if l.queue != [] {
      assert Tickets(l.queue) == [l.queue[0].ticket] + Tickets(l.queue[1..]);
    }
  }

  /** `s` without the members of `gone`. */
  function Without(s: seq<nat>, gone: set<nat>): (r: seq<nat>) {
    if s == [] then [] else Without(s[..|s| - 1], gone) + if s[|s| - 1] in gone then [] else [s[|s| - 1]]
  }

  lemma {:induction false} WithoutConcat(a: seq<nat>, b: seq<nat>, gone: set<nat>)
    ensures Without(a + b, gone) == Without(a, gone) + Without(b, gone)
  {
    if b == [] {
      assert a + b == a;
    } else {
      WithoutConcat(a, b[..|b| - 1], gone);
      assert (a + b)[..|a + b| - 1] == a + b[..|b| - 1];
    }
  }

  lemma {:induction false} WithoutNothing(s: seq<nat>, gone: set<nat>)
    requires forall i :: 0 <= i < |s| ==> s[i] !in gone
    ensures Without(s, gone) == s
  {
    if s != [] {
      WithoutNothing(s[..|s| - 1], gone);
    }
  }

  lemma {:induction false} StandingWithout(n: nat, abandoned: set<nat>, gone: set<nat>)
    ensures Standing(n, abandoned + gone) == Without(Standing(n, abandoned), gone)
  {
    if 0 < n {
      StandingWithout(n - 1, abandoned, gone);
      WithoutConcat(Standing(n - 1, abandoned), if n - 1 in abandoned then [] else [n - 1], gone);
    }
  }

  /** The tickets `abandone_weak_locks` leaves in the queue, after `n` entries. */
  function KeptTickets(q: seq<Request>, n: nat): (s: seq<nat>)
    requires n <= |q|
  {
    var at := FL.StrongAt(Weak(q), n);
    seq(|at|, j requires 0 <= j < |at| => q[at[j]].ticket)
  }

  lemma {:induction false} KeptTicketsAre(q: seq<Request>, n: nat)
    requires n <= |q|
    requires forall i, j :: 0 <= i < j < |q| ==> q[i].ticket != q[j].ticket
    ensures KeptTickets(q, n) == Without(Tickets(q)[..n], DroppedTickets(q))
  {
    if 0 < n {
      hide KeptTickets, DroppedTickets;
      KeptTicketsAre(q, n - 1);
      assert Tickets(q)[..n] == Tickets(q)[..n - 1] + [q[n - 1].ticket];
      WithoutConcat(Tickets(q)[..n - 1], [q[n - 1].ticket], DroppedTickets(q));
      DroppedIsWeak(q, n - 1);
      KeptTicketsGrow(q, n);
    }
  }

  lemma DroppedIsWeak(q: seq<Request>, i: nat)
    requires i < |q| && forall i, j :: 0 <= i < j < |q| ==> q[i].ticket != q[j].ticket
    ensures q[i].ticket in DroppedTickets(q) <==> q[i].weak
  {
  }

  lemma KeptTicketsGrow(q: seq<Request>, n: nat)
    requires 0 < n <= |q|
    ensures KeptTickets(q, n) == KeptTickets(q, n - 1) + if q[n - 1].weak then [] else [q[n - 1].ticket]
  {
  }

  lemma QueueApart(l: Lock)
    requires Ordered(l)
    ensures forall i, j :: 0 <= i < j < |l.queue| ==> l.queue[i].ticket != l.queue[j].ticket
    ensures forall i :: 0 <= i < |l.queue| ==> l.queue[i].ticket !in l.served + InFlight(l)
    ensures forall i :: 0 <= i < |l.queue| ==> l.queue[i].ticket < l.arrivals
  {
    var s := Standing(l.arrivals, l.abandoned);
    StandingIncreases(l.arrivals, l.abandoned);
    var ahead := l.served + InFlight(l);
    var n := |ahead|;
    forall i, j | 0 <= i < j < |l.queue|
      ensures l.queue[i].ticket != l.queue[j].ticket
    {
      assert s[n + i] == l.queue[i].ticket && s[n + j] == l.queue[j].ticket;
    }
    forall i | 0 <= i < |l.queue|
      ensures l.queue[i].ticket !in ahead && l.queue[i].ticket < l.arrivals
    {
      assert s[n + i] == l.queue[i].ticket;
      assert forall k :: 0 <= k < n ==> s[k] == ahead[k];
    }
  }

  /** Blocking weak locks removes exactly the weak requests still queued. */
  lemma BlockOrdered(l: Lock)
    requires Ordered(l)
    ensures Ordered(Block(l))
  {
    var l' := Block(l);
    var gone := DroppedTickets(l.queue);
    var ahead := l.served + InFlight(l);
    QueueApart(l);
    StandingWithout(l.arrivals, l.abandoned, gone);
    WithoutConcat(ahead, Tickets(l.queue), gone);
    WithoutNothing(ahead, gone);
    KeptTicketsAre(l.queue, |l.queue|);
    assert Tickets(l.queue)[..|l.queue|] == Tickets(l.queue);
    assert Tickets(l'.queue) == KeptTickets(l.queue, |l.queue|);
  }
}
