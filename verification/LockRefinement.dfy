/** The linked fair lock refines the lock as a value, on which the queue protocol is built. */
module LockRefinement {
  import opened Options
  import opened LockValue
  import FL = FairLock

  /** Which request each entry stands for, and the entry whose thread was handed the lock. */
  datatype Names = Names(requests: map<FL.Entry, Request>, handed: Option<FL.Entry>)

  ghost predicate SameCounters(k: FL.FairLock, l: Lock)
    reads k
  {
    k.acquired == l.acquired && k.waiting == l.waiting && k.blockWeak == l.blockWeak
  }

  /** The queued entries stand for the queued requests, in order. */
  ghost predicate SameQueue(entries: seq<FL.Entry>, queue: seq<Request>, requests: map<FL.Entry, Request>)
    reads entries
  {
    && |entries| == |queue|
    && forall i :: 0 <= i < |queue| ==>
         && entries[i] in requests && requests[entries[i]] == queue[i]
         && entries[i].weak == queue[i].weak && !entries[i].abandoned
  }

  /** Of the entries signalled, the one handed the lock is not abandoned and all others are. */
  ghost predicate SameWoken(k: FL.FairLock, l: Lock, m: Names)
    reads k, k.woken
  {
    && (forall e :: e in k.woken ==> e !in k.queued && e !in k.pooled && (e.abandoned <==> m.handed != Some(e)))
    && (m.handed.Some? <==> l.handoff.Some?)
    && (m.handed.Some? ==> m.handed.value in k.woken && m.handed.value in m.requests
                           && m.requests[m.handed.value] == l.handoff.value)
  }

  /** The linked lock stands for the value. */
  ghost predicate Stands(k: FL.FairLock, l: Lock, m: Names)
    reads k, k.queued, k.pooled, k.queue, k.woken
  {
    k.Valid() && SameCounters(k, l) && SameQueue(k.queue, l.queue, m.requests) && SameWoken(k, l, m)
  }

  method Begin() returns (k: FL.FairLock, ghost m: Names)
    ensures fresh(k) && Stands(k, INITIAL, m)
  {
    k := new FL.FairLock();
    m := Names(map[], None);
  }

  /** A request is refused, granted or queued as the value says, and an entry queued stands for it. */
  method Ask(k: FL.FairLock, ghost l: Lock, ghost m: Names, ghost tid: Tid, weak: bool)
    returns (outcome: FL.Outcome, e: FL.Entry?, ghost m': Names)
    requires Stands(k, l, m)
    modifies k, k.queued`next, k.pooled
    ensures outcome == FL.Refused <==> weak && l.blockWeak
    ensures outcome == FL.Refused ==> Stands(k, l, m')
    ensures outcome != FL.Refused ==> Stands(k, Enter(l, tid, weak), m') && (outcome == FL.Acquired <==> IsFree(l))
    ensures outcome == FL.MustWait ==> e != null && e in m'.requests && m'.requests[e] == Request(l.arrivals, tid, weak)
  {
    outcome, e := k.Attempt(weak);
    m' := if outcome == FL.MustWait then m.(requests := m.requests[e := Request(l.arrivals, tid, weak)]) else m;
  }

  /** A thread signalled gets the lock exactly when it is the one the value hands it to. */
  method Wake(k: FL.FairLock, ghost l: Lock, ghost m: Names, e: FL.Entry) returns (granted: bool, ghost m': Names)
    requires Stands(k, l, m) && e in k.woken
    modifies k, e`next
    ensures granted == (m.handed == Some(e))
    ensures Stands(k, if granted then Take(l) else l, m')
  {
    granted := k.Resume(e);
    m' := if granted then m.(handed := None) else m;
  }

  /** Unlocking hands the lock to the thread of the first request. */
  method Unlock(k: FL.FairLock, ghost l: Lock, ghost m: Names) returns (ghost m': Names)
    requires Stands(k, l, m) && Counted(l) && l.acquired
    modifies k
    ensures Stands(k, Release(l), m')
  {
    m' := if k.queue == [] then m else m.(handed := Some(k.queue[0]));
    k.Unlock();
  }

  method BlockWeak(k: FL.FairLock, ghost l: Lock, ghost m: Names)
    requires Stands(k, l, m)
    modifies k, k.queued`next, k.queued`abandoned
    ensures Stands(k, Block(l), m)
  {
    k.BlockWeakLocks(Weak(l.queue));
  }

  method AllowWeak(k: FL.FairLock, ghost l: Lock, ghost m: Names)
    requires Stands(k, l, m)
    modifies k
    ensures Stands(k, Allow(l), m)
  {
    k.AllowWeakLocks();
  }
}
