/** Every step of the blocking queue keeps its invariant. */
module QueueSteps {
  import opened Ring
  import opened LockValue
  import opened Options
  import opened QueueProtocol
  import opened QueueSafety
  import FL = FairLock

  /** A step that changes where one thread is, and perhaps who has the mutex, and nothing else. */
  lemma PlainStepKeeps(s: State, s': State, t: Tid)
    requires Inv(s) && t < |s.threads| && |s'.threads| == |s.threads|
    requires s' == s.(threads := s.threads[t := s'.threads[t]], mutex := s'.mutex)
    requires RoleOf(s'.threads[t], Producer) == RoleOf(s.threads[t], Producer)
    requires RoleOf(s'.threads[t], Consumer) == RoleOf(s.threads[t], Consumer)
    requires MutexHeld(s'.threads, s'.mutex)
    requires PcOk(s', s'.threads[t])
    requires s.threads[t].pc != Idle && s'.threads[t].pc != Idle
    requires s'.threads[t].pc == Waiting ==> s.closer == Open
    ensures Inv(s')
  {
    forall p: Part
      ensures Holds(s', p)
    {
      assert Holds(s, p);
      match p {
        case AddLock => LockSideFrame(s.threads, t, s'.threads[t], s.locks.producer, Producer);
        case GetLock => LockSideFrame(s.threads, t, s'.threads[t], s.locks.consumer, Consumer);
        case Mutex =>
        case Elements =>
        case Blocking =>
        case Places => PcsFrame(s, s', t);
        case Close => ClosingFrame(s, s', t);
      }
    }
  }

  lemma LockMutexKeeps(s: State, t: Tid)
    requires Inv(s) && t < |s.threads| && s.mutex == None && (s.threads[t].pc == Holding || s.threads[t].pc == Signalled)
    ensures Inv(DoLockMutex(s, t))
  {
    assert Holds(s, Mutex) && Holds(s, Places);
    assert PcOk(s, s.threads[t]);
    PlainStepKeeps(s, DoLockMutex(s, t), t);
  }

  lemma RecheckKeeps(s: State, t: Tid)
    requires Inv(s) && t < |s.threads| && s.threads[t].pc == Woken
    ensures Inv(DoRecheck(s, t))
  {
    assert Holds(s, Mutex) && Holds(s, Places);
    assert PcOk(s, s.threads[t]);
    PlainStepKeeps(s, DoRecheck(s, t), t);
  }

  lemma UnlockMutexKeeps(s: State, t: Tid)
    requires Inv(s) && t < |s.threads| && s.threads[t].pc.Failed?
    ensures Inv(SetPc(s, t, Returning(s.threads[t].pc.status)).(mutex := None))
  {
    assert Holds(s, Mutex) && Holds(s, Places);
    assert PcOk(s, s.threads[t]);
    PlainStepKeeps(s, SetPc(s, t, Returning(s.threads[t].pc.status)).(mutex := None), t);
  }

  lemma DecideKeeps(s: State, t: Tid)
    requires Inv(s) && t < |s.threads| && s.threads[t].pc == Limited
    ensures Inv(DoDecide(s, t))
  {
    assert Holds(s, Mutex) && Holds(s, Places) && Holds(s, Part.Close);
    assert PcOk(s, s.threads[t]);
    PlainStepKeeps(s, DoDecide(s, t), t);
  }

  /** A step into or out of a call. */
  lemma CountStepKeeps(s: State, s': State, t: Tid)
    requires Inv(s) && t < |s.threads| && |s'.threads| == |s.threads|
    requires s' == s.(threads := s.threads[t := s'.threads[t]], active := s'.active, closer := s'.closer)
    requires HoldsNothing(s.threads[t].pc) && HoldsNothing(s'.threads[t].pc)
    requires PcOk(s', s'.threads[t])
    requires Closing(s')
    ensures Inv(s')
  {
    forall p: Part
      ensures Holds(s', p)
    {
      assert Holds(s, p);
      match p {
        case AddLock => LockSideFrame(s.threads, t, s'.threads[t], s.locks.producer, Producer);
        case GetLock => LockSideFrame(s.threads, t, s'.threads[t], s.locks.consumer, Consumer);
        case Mutex => MutexFrame(s.threads, t, s'.threads[t], s.mutex);
        case Elements =>
        case Blocking =>
        case Places => PcsFrame(s, s', t);
        case Close =>
      }
    }
  }

  predicate HoldsNothing(pc: Pc) {
    !HoldsLock(pc) && !HoldsMutex(pc) && pc != Granted && pc != Queued
  }

  lemma CallKeeps(s: State, t: Tid, side: Side, async: bool, element: Element)
    requires Inv(s) && t < |s.threads| && s.threads[t].pc == Idle
    ensures Inv(DoCall(s, t, side, async, element))
  {
    var s' := DoCall(s, t, side, async, element);
    assert Holds(s, Part.Close);
    CountUpdate(s.threads, t, s'.threads[t]);
    CountStepKeeps(s, s', t);
  }

  lemma ReturnKeeps(s: State, t: Tid)
    requires Inv(s) && t < |s.threads| && s.threads[t].pc.Returning?
    ensures Inv(DoReturn(s, t))
  {
    var s' := DoReturn(s, t);
    assert Holds(s, Part.Close);
    CountUpdate(s.threads, t, s'.threads[t]);
    CountStepKeeps(s, s', t);
  }

  /** Letting weak requests in again takes nothing away that a thread relies on. */
  lemma PcsAllow(s: State, s': State, t: Tid)
    requires PcsOk(s) && t < |s.threads| && |s'.threads| == |s.threads|
    requires s'.threads == s.threads[t := s'.threads[t]] && PcOk(s', s'.threads[t])
    requires s'.ring == s.ring && s'.bounded == s.bounded && s'.closed == s.closed
    requires s'.flags.producer ==> s.flags.producer
    requires s'.flags.consumer ==> s.flags.consumer
    ensures PcsOk(s')
  {
  }

  lemma AllowSide(threads: seq<Thread>, l: Lock, d: Side)
    requires LockSide(threads, l, d)
    ensures LockSide(threads, Allow(l), d)
  {
  }

  lemma AllowOtherKeeps(s: State, t: Tid)
    requires Inv(s) && t < |s.threads| && s.threads[t].pc == Moving
    ensures Inv(DoAllowOther(s, t))
  {
    var s' := DoAllowOther(s, t);
    forall p: Part
      ensures Holds(s', p)
    {
      assert Holds(s, p);
      match p {
        case AddLock =>
          LockSideFrame(s.threads, t, s'.threads[t], s.locks.producer, Producer);
          AllowSide(s'.threads, s.locks.producer, Producer);
        case GetLock =>
          LockSideFrame(s.threads, t, s'.threads[t], s.locks.consumer, Consumer);
          AllowSide(s'.threads, s.locks.consumer, Consumer);
        case Mutex => MutexFrame(s.threads, t, s'.threads[t], s.mutex);
        case Elements =>
        case Blocking =>
        case Places =>
          assert PcOk(s, s.threads[t]);
          PcsAllow(s, s', t);
        case Close => ClosingFrame(s, s', t);
      }
    }
  }

  // ---------- steps on a fair lock ----------

  lemma EnterSide(threads: seq<Thread>, l: Lock, t: Tid, th: Thread)
    requires LockSide(threads, l, th.side) && t < |threads|
    requires RoleOf(threads[t], th.side) == Outside
    requires th.ticket == l.arrivals && th.pc == if IsFree(l) then Holding else Queued
    ensures LockSide(threads[t := th], Enter(l, t, th.async), th.side)
  {
  }

  lemma TakeSide(threads: seq<Thread>, l: Lock, t: Tid, th: Thread)
    requires LockSide(threads, l, th.side) && t < |threads|
    requires RoleOf(threads[t], th.side) == Handed && RoleOf(th, th.side) == Owner
    ensures l.handoff.Some? && LockSide(threads[t := th], Take(l), th.side)
  {
  }

  /** A step that changes one thread and the lock of its side, and nothing else. */
  lemma LockStepKeeps(s: State, t: Tid, th: Thread, l: Lock)
    requires Inv(s) && t < |s.threads| && th.side == s.threads[t].side
    requires LockSide(s.threads[t := th], l, th.side) && l.blockWeak == s.locks.Of(th.side).blockWeak
    requires HoldsMutex(th.pc) == HoldsMutex(s.threads[t].pc)
    requires PcOk(s, th) && s.threads[t].pc != Idle && th.pc != Idle && th.pc != Waiting
    ensures Inv(SetLock(s.(threads := s.threads[t := th]), th.side, l))
  {
    var s' := SetLock(s.(threads := s.threads[t := th]), th.side, l);
    forall p: Part
      ensures Holds(s', p)
    {
      assert Holds(s, p);
      match p {
        case AddLock => if th.side == Consumer { LockSideFrame(s.threads, t, th, s.locks.producer, Producer); }
        case GetLock => if th.side == Producer { LockSideFrame(s.threads, t, th, s.locks.consumer, Consumer); }
        case Mutex => MutexFrame(s.threads, t, th, s.mutex);
        case Elements =>
        case Blocking =>
        case Places => PcsFrame(s, s', t);
        case Close => ClosingFrame(s, s', t);
      }
    }
  }

  lemma AttemptKeeps(s: State, t: Tid)
    requires Inv(s) && t < |s.threads| && s.threads[t].pc == Entered
    ensures Inv(DoAttempt(s, t))
  {
    var th := s.threads[t];
    if th.async && s.locks.Of(th.side).blockWeak { RefusedKeeps(s, t); } else { EnterKeeps(s, t); }
  }

  lemma RefusedKeeps(s: State, t: Tid)
    requires Inv(s) && t < |s.threads| && s.threads[t].pc == Entered
    requires s.threads[t].async && s.locks.Of(s.threads[t].side).blockWeak
    ensures Inv(DoAttempt(s, t))
  {
    hide Conserved, LockSide, BlocksHonestly, Closing;
    assert Holds(s, Mutex);
    PlainStepKeeps(s, DoAttempt(s, t), t);
  }

  lemma EnterKeeps(s: State, t: Tid)
    requires Inv(s) && t < |s.threads| && s.threads[t].pc == Entered
    requires !(s.threads[t].async && s.locks.Of(s.threads[t].side).blockWeak)
    ensures Inv(DoAttempt(s, t))
  {
    hide Conserved, LockSide, BlocksHonestly, Closing, MutexHeld;
    var th := s.threads[t];
    var l := s.locks.Of(th.side);
    assert Holds(s, LockPart(th.side));
    var th' := th.(ticket := l.arrivals, pc := if IsFree(l) then Holding else Queued);
    EnterSide(s.threads, l, t, th');
    LockStepKeeps(s, t, th', Enter(l, t, th.async));
  }

  lemma ResumeKeeps(s: State, t: Tid)
    requires Inv(s) && t < |s.threads| && (s.threads[t].pc == Granted || s.threads[t].pc == Abandoned)
    ensures Inv(DoResume(s, t))
  {
    var th := s.threads[t];
    if th.pc == Abandoned {
      assert Holds(s, Mutex) && Holds(s, Places);
      assert PcOk(s, th);
      PlainStepKeeps(s, DoResume(s, t), t);
    } else {
      assert Holds(s, LockPart(th.side));
      TakeSide(s.threads, s.locks.Of(th.side), t, th.(pc := Holding));
      LockStepKeeps(s, t, th.(pc := Holding), Take(s.locks.Of(th.side)));
    }
  }

  /** The threads after an unlock by `t`: whoever was first in the queue is handed the lock. */
  function AfterRelease(threads: seq<Thread>, l: Lock, t: Tid, th: Thread): (r: seq<Thread>)
    requires t < |threads| && (l.queue != [] ==> l.queue[0].tid < |threads|)
    ensures |r| == |threads|
  {
    var r := threads[t := th];
    if l.queue == [] then r else r[l.queue[0].tid := r[l.queue[0].tid].(pc := Granted)]
  }

  lemma ReleaseSide(threads: seq<Thread>, l: Lock, t: Tid, th: Thread)
    requires LockSide(threads, l, th.side) && t < |threads| && th.side == threads[t].side
    requires RoleOf(threads[t], th.side) == Owner && RoleOf(th, th.side) == Outside
    ensures l.queue != [] ==> l.queue[0].tid < |threads| && threads[l.queue[0].tid].pc == Queued && threads[l.queue[0].tid].side == th.side
    ensures LockSide(AfterRelease(threads, l, t, th), Release(l), th.side)
  {
    var r, l' := AfterRelease(threads, l, t, th), Release(l);
    if l.queue != [] {
      assert RoleOf(threads[l.queue[0].tid], th.side).InQueue?;
      assert forall i :: 0 <= i < |l'.queue| ==> l'.queue[i] == l.queue[i + 1];
      forall u | 0 <= u < |r| && RoleOf(r[u], th.side).InQueue?
        ensures Request(r[u].ticket, u, r[u].async) in l'.queue
      {
        assert Request(r[u].ticket, u, r[u].async) in l.queue;
      }
    }
  }

  lemma HandOverPcs(s: State, s': State, t: Tid, th: Thread, w: Tid)
    requires PcsOk(s) && t < |s.threads| && w < |s.threads| && w != t && PcOk(s, th)
    requires s'.threads == s.threads[t := th][w := s.threads[w].(pc := Granted)]
    requires s'.ring == s.ring && s'.bounded == s.bounded && s'.closed == s.closed && s'.flags == s.flags
    ensures PcsOk(s')
  {
  }

  /** An unlock by `t` that hands the lock to `w`. */
  lemma HandOverKeeps(s: State, t: Tid, th: Thread, w: Tid, l: Lock)
    requires Inv(s) && t < |s.threads| && w < |s.threads| && w != t && th.side == s.threads[t].side
    requires s.threads[w].pc == Queued && s.threads[w].side == th.side
    requires var r := s.threads[t := th][w := s.threads[w].(pc := Granted)]; LockSide(r, l, th.side)
    requires l.blockWeak == s.locks.Of(th.side).blockWeak
    requires HoldsMutex(th.pc) == HoldsMutex(s.threads[t].pc)
    requires PcOk(s, th) && s.threads[t].pc != Idle && th.pc != Idle && th.pc != Waiting
    ensures Inv(SetLock(s.(threads := s.threads[t := th][w := s.threads[w].(pc := Granted)]), th.side, l))
  {
    hide PcOk, LockSide, ActiveCount, MutexHeld, NobodyWaits;
    var r := s.threads[t := th][w := s.threads[w].(pc := Granted)];
    var s' := SetLock(s.(threads := r), th.side, l);
    forall p: Part
      ensures Holds(s', p)
    {
      assert Holds(s, p);
      match p {
        case AddLock => if th.side == Consumer { HandOverStranger(s.threads, t, th, w, s.locks.producer, Producer); }
        case GetLock => if th.side == Producer { HandOverStranger(s.threads, t, th, w, s.locks.consumer, Consumer); }
        case Mutex =>
          MutexFrame(s.threads, t, th, s.mutex);
          MutexFrame(s.threads[t := th], w, r[w], s.mutex);
        case Elements =>
        case Blocking =>
        case Places => HandOverPcs(s, s', t, th, w);
        case Close =>
          ClosingFrame(s, s.(threads := s.threads[t := th]), t);
          ClosingFrame(s.(threads := s.threads[t := th]), s', w);
      }
    }
  }

  lemma HandOverStranger(threads: seq<Thread>, t: Tid, th: Thread, w: Tid, l: Lock, d: Side)
    requires LockSide(threads, l, d) && t < |threads| && w < |threads| && w != t
    requires threads[t].side != d && th.side != d && threads[w].side != d
    ensures LockSide(threads[t := th][w := threads[w].(pc := Granted)], l, d)
  {
    LockSideFrame(threads, t, th, l, d);
    LockSideFrame(threads[t := th], w, threads[w].(pc := Granted), l, d);
  }

  lemma UnlockFairKeeps(s: State, t: Tid)
    requires Inv(s) && t < |s.threads| && (s.threads[t].pc == Releasing || s.threads[t].pc.Failing?)
    ensures Inv(DoUnlockFair(s, t))
  {
    hide Conserved, LockSide, BlocksHonestly, Closing, MutexHeld;
    var th := s.threads[t];
    var l := s.locks.Of(th.side);
    var th' := th.(pc := if th.pc == Releasing then Returning(Success) else Failed(th.pc.status));
    assert Holds(s, LockPart(th.side)) && Holds(s, Places);
    assert PcOk(s, th);
    ReleaseSide(s.threads, l, t, th');
    if l.queue == [] {
      LockStepKeeps(s, t, th', Release(l));
    } else {
      HandOverKeeps(s, t, th', l.queue[0].tid, Release(l));
    }
  }

  // ---------- closing ----------

  lemma CloseKeeps(s: State)
    requires Inv(s) && s.mutex == None && s.closer == Open
    ensures Inv(s.(closed := true, closer := Looping))
  {
    var s' := s.(closed := true, closer := Looping);
    forall p: Part
      ensures Holds(s', p)
    {
      assert Holds(s, p) && Holds(s, Mutex);
    }
  }

  /** Two threads waiting on the condition variable are one. */
  lemma OneWaits(s: State, t: Tid, u: Tid)
    requires Inv(s) && t < |s.threads| && u < |s.threads|
    requires s.threads[t].pc == Waiting && s.threads[u].pc == Waiting
    ensures t == u
  {
    assert Holds(s, Places) && Holds(s, LockPart(s.threads[t].side)) && Holds(s, Elements);
    assert PcOk(s, s.threads[t]) && PcOk(s, s.threads[u]);
  }

  lemma CloseLoopKeeps(s: State, wake: Option<Tid>)
    requires Inv(s) && s.closer == Looping && MayWake(s, wake)
    ensures Inv(DoCloseLoop(s, wake))
  {
    hide Conserved, LockSide, BlocksHonestly;
    assert Holds(s, Part.Close);
    if s.active == 0 {
      NoneActive(s.threads);
      CloserKeeps(s, DoCloseLoop(s, wake));
    } else {
      var mid := Wake(s, wake);
      if wake.Some? { WakeKeeps(s, wake.value); }
      assert Holds(mid, Part.Close);
      CloserKeeps(mid, DoCloseLoop(s, wake));
    }
  }

  /** A signal wakes the one thread that waits. */
  lemma WakeKeeps(s: State, w: Tid)
    requires Inv(s) && s.closer == Looping && w < |s.threads| && s.threads[w].pc == Waiting
    ensures Inv(SetPc(s, w, Signalled)) && NobodyWaits(SetPc(s, w, Signalled))
  {
    hide Conserved, LockSide, BlocksHonestly, ActiveCount;
    assert Holds(s, Part.Close) && Holds(s, Mutex);
    PlainStepKeeps(s, SetPc(s, w, Signalled), w);
    forall t | 0 <= t < |s.threads| && s.threads[t].pc == Waiting
      ensures t == w
    {
      OneWaits(s, t, w);
    }
  }

  /** A step of the closing loop alone. */
  lemma CloserKeeps(s: State, s': State)
    requires Inv(s) && s' == s.(closer := s'.closer) && Closing(s')
    ensures Inv(s')
  {
    forall p: Part
      ensures Holds(s', p)
    {
      assert Holds(s, p);
    }
  }

  lemma {:induction false} NoneActive(threads: seq<Thread>)
    requires ActiveCount(threads) == 0
    ensures forall t :: 0 <= t < |threads| ==> threads[t].pc == Idle
  {
    if threads != [] {
      NoneActive(threads[..|threads| - 1]);
      assert forall t :: 0 <= t < |threads| - 1 ==> threads[..|threads| - 1][t] == threads[t];
    }
  }

  // ---------- the test of the capacity ----------

  /** Twice the cells: whoever could move an element still can. */
  lemma GrowKeeps(s: State, t: Tid, grown: Ring)
    requires Inv(s) && t < |s.threads| && s.threads[t].pc == Checking && s.threads[t].side == Producer
    requires !s.closed && s.ring.IsFull() && !s.bounded
    requires s.ring.Valid() ==> GrownTo(s.ring, grown)
    ensures Inv(SetPc(s, t, Moving).(ring := grown))
  {
    var s' := SetPc(s, t, Moving).(ring := grown);
    assert Holds(s, Elements);
    GrowKeepsContents(s.ring, grown);
    forall p: Part
      ensures Holds(s', p)
    {
      assert Holds(s, p);
      match p {
        case AddLock => LockSideFrame(s.threads, t, s'.threads[t], s.locks.producer, Producer);
        case GetLock => LockSideFrame(s.threads, t, s'.threads[t], s.locks.consumer, Consumer);
        case Mutex => MutexFrame(s.threads, t, s'.threads[t], s.mutex);
        case Elements =>
        case Blocking =>
        case Places => GrowPcs(s, s', t);
        case Close => ClosingFrame(s, s', t);
      }
    }
  }

  lemma GrowPcs(s: State, s': State, t: Tid)
    requires PcsOk(s) && t < |s.threads| && |s'.threads| == |s.threads|
    requires s'.threads == s.threads[t := s'.threads[t]] && PcOk(s', s'.threads[t])
    requires !s.bounded && !s'.bounded && s'.closed == s.closed && s'.flags == s.flags
    requires s'.ring.size == s.ring.size && !s'.ring.IsFull()
    ensures PcsOk(s')
  {
  }

  lemma KeptIn(q: seq<Request>, r: Request)
    ensures r in Kept(q) <==> r in q && !r.weak
  {
    var at := FL.StrongAt(Weak(q), |q|);
    FL.StrongAtExact(Weak(q), |q|);
    if r in q && !r.weak {
      var k :| 0 <= k < |q| && q[k] == r;
      assert !Weak(q)[k];
      var j :| 0 <= j < |at| && at[j] == k;
      assert Kept(q)[j] == r;
    }
  }

  /** Blocking weak locks by the owner: exactly the threads with a weak entry leave the queue. */
  lemma BlockSide(threads: seq<Thread>, threads': seq<Thread>, l: Lock, d: Side)
    requires LockSide(threads, l, d) && |threads'| == |threads|
    requires forall t :: 0 <= t < |threads| ==>
      RoleOf(threads'[t], d) == if Request(threads[t].ticket, t, true) in l.queue then Outside else RoleOf(threads[t], d)
    requires forall t :: 0 <= t < |threads| ==> threads'[t].ticket == threads[t].ticket && threads'[t].async == threads[t].async
    ensures LockSide(threads', Block(l), d)
  {
    hide Kept;
    var kept := Kept(l.queue);
    KeptApart(l.queue);
    KeptShort(l.queue);
    forall u | 0 <= u < |threads'| && RoleOf(threads'[u], d).InQueue?
      ensures Request(threads'[u].ticket, u, threads'[u].async) in kept
    {
      QueuedIsKept(threads, threads', l, d, u);
    }
    forall k | 0 <= k < |kept|
      ensures kept[k].tid < |threads| && RoleOf(threads'[kept[k].tid], d) == InQueue(kept[k].ticket, kept[k].weak)
    {
      KeptStaysQueued(threads, threads', l, d, kept[k]);
    }
  }

  lemma QueuedIsKept(threads: seq<Thread>, threads': seq<Thread>, l: Lock, d: Side, u: Tid)
    requires LockSide(threads, l, d) && |threads'| == |threads| && u < |threads| && RoleOf(threads'[u], d).InQueue?
    requires RoleOf(threads'[u], d) == if Request(threads[u].ticket, u, true) in l.queue then Outside else RoleOf(threads[u], d)
    requires threads'[u].ticket == threads[u].ticket && threads'[u].async == threads[u].async
    ensures Request(threads'[u].ticket, u, threads'[u].async) in Kept(l.queue)
  {
    hide Kept;
    KeptIn(l.queue, Request(threads[u].ticket, u, threads[u].async));
  }

  lemma KeptStaysQueued(threads: seq<Thread>, threads': seq<Thread>, l: Lock, d: Side, q: Request)
    requires LockSide(threads, l, d) && |threads'| == |threads| && q in Kept(l.queue)
    requires forall t :: 0 <= t < |threads| ==>
      RoleOf(threads'[t], d) == if Request(threads[t].ticket, t, true) in l.queue then Outside else RoleOf(threads[t], d)
    ensures q.tid < |threads| && RoleOf(threads'[q.tid], d) == InQueue(q.ticket, q.weak)
  {
    hide Kept;
    KeptIn(l.queue, q);
    var i :| 0 <= i < |l.queue| && l.queue[i] == q;
    assert RoleOf(threads[l.queue[i].tid], d) == InQueue(l.queue[i].ticket, false);
  }

  lemma KeptShort(q: seq<Request>)
    ensures |Kept(q)| <= |q|
  {
  }

  lemma KeptApart(q: seq<Request>)
    requires forall i, j :: 0 <= i < j < |q| ==> q[i].tid != q[j].tid
    ensures forall i, j :: 0 <= i < j < |Kept(q)| ==> Kept(q)[i].tid != Kept(q)[j].tid
  {
    FL.StrongAtExact(Weak(q), |q|);
  }

  lemma BlockPcs(s: State, s': State, t: Tid, d: Side)
    requires PcsOk(s) && t < |s.threads| == |s'.threads| && Sleepers(s.threads, s.locks.Of(d), d)
    requires s'.threads == AbandonAll(s, d)[t := s'.threads[t]] && PcOk(s', s'.threads[t])
    requires s'.ring == s.ring && s'.bounded == s.bounded && s'.closed == s.closed
    requires MutexHeld(s.threads, Some(t)) && s'.flags == s.flags.With(d, true)
    ensures PcsOk(s')
  {
  }

  function Blocked(s: State, t: Tid): (s': State)
    requires t < |s.threads|
  {
    var d := s.threads[t].side;
    SetPc(SetLock(s.(threads := AbandonAll(s, d)), d, Block(s.locks.Of(d))), t, Limited).(flags := s.flags.With(d, true))
  }

  lemma DroppedIsQueued(s: State, d: Side, t: Tid)
    requires Inv(s) && t < |s.threads| && Drops(s, d, t)
    ensures s.threads[t].side == d && s.threads[t].pc == Queued
  {
    assert Holds(s, LockPart(d));
    var q := s.locks.Of(d).queue;
    var i :| 0 <= i < |q| && q[i] == Request(s.threads[t].ticket, t, true);
    assert RoleOf(s.threads[q[i].tid], d).InQueue?;
  }

  /** What every thread is after weak locks were blocked by `t`. */
  lemma BlockedThread(s: State, t: Tid, u: Tid)
    requires Inv(s) && t < |s.threads| && s.threads[t].pc == Checking && u < |s.threads|
    ensures var d := s.threads[t].side; var th, th' := s.threads[u], Blocked(s, t).threads[u];
      && th'.ticket == th.ticket && th'.async == th.async && th'.side == th.side
      && RoleOf(th', d) == (if Drops(s, d, u) then Outside else RoleOf(th, d))
      && RoleOf(th', Other(d)) == RoleOf(th, Other(d))
      && HoldsMutex(th'.pc) == HoldsMutex(th.pc)
      && (th'.pc == Idle <==> th.pc == Idle)
      && (th'.pc == Waiting ==> th.pc == Waiting)
  {
    if Drops(s, s.threads[t].side, u) {
      DroppedIsQueued(s, s.threads[t].side, u);
    }
  }

  lemma BlockKeeps(s: State, t: Tid)
    requires Inv(s) && t < |s.threads| && s.threads[t].pc == Checking
    requires !s.closed && AtLimit(s, s.threads[t].side)
    ensures Inv(Blocked(s, t))
  {
    var d := s.threads[t].side;
    var s' := Blocked(s, t);
    forall u | 0 <= u < |s.threads| { BlockedThread(s, t, u); }
    forall p: Part
      ensures Holds(s', p)
    {
      assert Holds(s, p);
      match p {
        case AddLock => BlockedSide(s, t, Producer);
        case GetLock => BlockedSide(s, t, Consumer);
        case Mutex =>
        case Elements =>
        case Blocking =>
        case Places =>
          assert Holds(s, Mutex) && Holds(s, LockPart(d));
          BlockPcs(s, s', t, d);
        case Close => SameCount(s.threads, s'.threads);
      }
    }
  }

  lemma BlockedSide(s: State, t: Tid, d: Side)
    requires Inv(s) && t < |s.threads| && s.threads[t].pc == Checking
    ensures LockSide(Blocked(s, t).threads, Blocked(s, t).locks.Of(d), d)
  {
    forall u | 0 <= u < |s.threads| { BlockedThread(s, t, u); }
    assert Holds(s, LockPart(d));
    if d == s.threads[t].side {
      BlockSide(s.threads, Blocked(s, t).threads, s.locks.Of(d), d);
    } else {
      LockSideSameRoles(s.threads, Blocked(s, t).threads, s.locks.Of(d), d);
    }
  }

  lemma CheckKeeps(s: State, t: Tid, grown: Ring)
    requires Inv(s) && t < |s.threads| && s.threads[t].pc == Checking
    requires s.ring.Valid() && s.ring.IsFull() ==> GrownTo(s.ring, grown)
    ensures Inv(DoCheck(s, t, grown))
  {
    var d := s.threads[t].side;
    if !s.closed && d == Producer && s.ring.IsFull() && !s.bounded {
      GrowKeeps(s, t, grown);
    } else if !s.closed && AtLimit(s, d) && !s.flags.Of(d) {
      BlockKeeps(s, t);
    } else {
      assert Holds(s, Mutex);
      PlainStepKeeps(s, DoCheck(s, t, grown), t);
    }
  }

  // ---------- moving an element ----------

  /** The other threads holding a fair lock when `t` moves an element: at most one, on the other side. */
  lemma OnlyOther(s: State, t: Tid, u: Tid)
    requires Inv(s) && t < |s.threads| && u < |s.threads| && u != t
    requires s.threads[t].pc == Ready && HoldsLock(s.threads[u].pc)
    ensures s.threads[u].side == Other(s.threads[t].side)
    ensures s.threads[u].pc in {Holding, Waiting, Signalled, Releasing}
  {
    assert Holds(s, LockPart(s.threads[t].side)) && Holds(s, Mutex);
    assert RoleOf(s.threads[t], s.threads[t].side) == Owner;
    assert HoldsMutex(s.threads[t].pc);
  }

  lemma MovePcs(s: State, t: Tid, wake: Option<Tid>)
    requires Inv(s) && t < |s.threads| && s.threads[t].pc == Ready && MayWake(s, wake)
    ensures s.ring.Valid() && PcsOk(DoMove(s, t, wake))
  {
    hide PcOk, Conserved, LockSide, BlocksHonestly, Closing;
    ReadyCanMove(s, t);
    var s' := DoMove(s, t, wake);
    forall u | 0 <= u < |s.threads|
      ensures PcOk(s', s'.threads[u])
    {
      MovePc(s, t, wake, u);
    }
  }

  lemma MovePc(s: State, t: Tid, wake: Option<Tid>, u: Tid)
    requires Inv(s) && t < |s.threads| && u < |s.threads| && s.threads[t].pc == Ready && MayWake(s, wake) && s.ring.Valid()
    ensures PcOk(DoMove(s, t, wake), DoMove(s, t, wake).threads[u])
  {
    hide Conserved, LockSide, BlocksHonestly, Closing;
    assert Holds(s, Places);
    assert PcOk(s, s.threads[t]) && PcOk(s, s.threads[u]);
    if u != t && HoldsLock(s.threads[u].pc) {
      OnlyOther(s, t, u);
      if s.threads[u].pc == Waiting { OneWaits(s, u, wake.value); }
    }
    assert Holds(s, Mutex);
  }

  /** A thread that is ready has the ring it needs. */
  lemma ReadyCanMove(s: State, t: Tid)
    requires Inv(s) && t < |s.threads| && s.threads[t].pc == Ready
    ensures s.ring.Valid() && CanMove(s, s.threads[t].side) && Conserved(s) && BlocksHonestly(s)
    ensures !s.flags.Of(Other(s.threads[t].side))
  {
    assert Holds(s, Elements) && Holds(s, Places) && Holds(s, Blocking);
    assert PcOk(s, s.threads[t]);
  }

  lemma MoveConserves(s: State, t: Tid, wake: Option<Tid>)
    requires t < |s.threads| && (wake.Some? ==> wake.value < |s.threads|) && Conserved(s) && CanMove(s, s.threads[t].side)
    ensures Conserved(DoMove(s, t, wake))
  {
    if s.threads[t].side == Producer {
      EnqueueAppends(s.ring, s.threads[t].element);
      hide Enqueued;
    } else {
      DequeueTakesOldest(s.ring);
      hide Dequeued;
      var x, rest := s.ring.cells[s.ring.front], Dequeued(s.ring).Contents();
      assert s.delivered + ([x] + rest) == (s.delivered + [x]) + rest;
    }
  }

  lemma MoveBlocks(s: State, t: Tid, wake: Option<Tid>)
    requires t < |s.threads| && (wake.Some? ==> wake.value < |s.threads|) && s.ring.Valid() && BlocksHonestly(s)
    requires CanMove(s, s.threads[t].side) && !s.flags.Of(Other(s.threads[t].side))
    ensures BlocksHonestly(DoMove(s, t, wake))
  {
  }

  lemma MoveElements(s: State, t: Tid, wake: Option<Tid>)
    requires Inv(s) && t < |s.threads| && s.threads[t].pc == Ready && MayWake(s, wake)
    ensures s.ring.Valid() && CanMove(s, s.threads[t].side)
    ensures Conserved(DoMove(s, t, wake)) && BlocksHonestly(DoMove(s, t, wake))
  {
    ReadyCanMove(s, t);
    MoveConserves(s, t, wake);
    MoveBlocks(s, t, wake);
  }

  /** What the threads are to the locks, the mutex and the count after `t` moved an element and signalled. */
  lemma MovedThread(s: State, t: Tid, wake: Option<Tid>, u: Tid)
    requires Inv(s) && s.ring.Valid() && t < |s.threads| && u < |s.threads| && s.threads[t].pc == Ready && MayWake(s, wake)
    ensures var th, th' := s.threads[u], DoMove(s, t, wake).threads[u];
      && RoleOf(th', Producer) == RoleOf(th, Producer)
      && RoleOf(th', Consumer) == RoleOf(th, Consumer)
      && HoldsMutex(th'.pc) == (HoldsMutex(th.pc) && u != t)
      && (th'.pc == Idle <==> th.pc == Idle)
      && (th'.pc == Waiting ==> th.pc == Waiting)
  {
  }

  lemma MoveKeeps(s: State, t: Tid, wake: Option<Tid>)
    requires Inv(s) && t < |s.threads| && s.threads[t].pc == Ready && MayWake(s, wake)
    ensures s.ring.Valid() && Inv(DoMove(s, t, wake))
  {
    hide Enqueued, Dequeued, PcOk, Conserved, BlocksHonestly, LockSide, ActiveCount, RoleOf;
    MoveElements(s, t, wake);
    var s' := DoMove(s, t, wake);
    forall u | 0 <= u < |s.threads| { MovedThread(s, t, wake, u); }
    forall p: Part
      ensures Holds(s', p)
    {
      assert Holds(s, p);
      match p {
        case AddLock => LockSideSameRoles(s.threads, s'.threads, s.locks.producer, Producer);
        case GetLock => LockSideSameRoles(s.threads, s'.threads, s.locks.consumer, Consumer);
        case Mutex =>
        case Elements =>
        case Blocking =>
        case Places => MovePcs(s, t, wake);
        case Close => SameCount(s.threads, s'.threads);
      }
    }
  }

  /** The invariant is kept by every step. */
  lemma StepKeeps(s: State, a: Action, s': State)
    requires Inv(s) && Next(s, a, s')
    ensures Inv(s')
  {
    match a {
      case Call(t, side, async, element) => CallKeeps(s, t, side, async, element);
      case Attempt(t) => AttemptKeeps(s, t);
      case Resume(t) => ResumeKeeps(s, t);
      case LockMutex(t) => LockMutexKeeps(s, t);
      case Check(t, grown) => CheckKeeps(s, t, grown);
      case Decide(t) => DecideKeeps(s, t);
      case Recheck(t) => RecheckKeeps(s, t);
      case AllowOther(t) => AllowOtherKeeps(s, t);
      case Move(t, wake) => MoveKeeps(s, t, wake);
      case UnlockFair(t) => UnlockFairKeeps(s, t);
      case UnlockMutex(t) => UnlockMutexKeeps(s, t);
      case Return(t) => ReturnKeeps(s, t);
      case Close => CloseKeeps(s);
      case CloseLoop(wake) => CloseLoopKeeps(s, wake);
    }
  }
}
