/** Add and poll never wait for another caller: while a put or take waits, weak requests of its side are turned away. */
module QueueAsync {
  import opened Ring
  import opened LockValue
  import opened Options
  import opened QueueProtocol
  import opened QueueSafety
  import opened QueueSteps
  import opened QueueTheorems
  import opened QueueThreads
  import opened QueueProgress

  /** While weak requests are blocked none is queued. */
  ghost predicate Shut(l: Lock) { l.blockWeak ==> forall i :: 0 <= i < |l.queue| ==> !l.queue[i].weak }

  ghost predicate LocksShut(s: State) { Shut(s.locks.producer) && Shut(s.locks.consumer) }

  lemma LocksShutAt(s: State, d: Side)
    requires LocksShut(s)
    ensures Shut(s.locks.Of(d))
  {
  }

  lemma ShutWith(s: State, s': State, d: Side, l: Lock)
    requires LocksShut(s) && s'.locks == s.locks.With(d, l) && Shut(l)
    ensures LocksShut(s')
  {
  }

  lemma EnterShuts(l: Lock, t: Tid, weak: bool)
    requires Shut(l) && !(weak && l.blockWeak)
    ensures Shut(Enter(l, t, weak))
  {
  }

  lemma ReleaseShuts(l: Lock)
    requires Shut(l)
    ensures Shut(Release(l))
  {
  }

  lemma BlockShuts(l: Lock)
    ensures Shut(Block(l))
  {
    hide Kept;
    var k := Kept(l.queue);
    forall i | 0 <= i < |k|
      ensures !k[i].weak
    {
      KeptIn(l.queue, k[i]);
    }
  }

  lemma AttemptShuts(s: State, t: Tid)
    requires LocksShut(s) && t < |s.threads|
    ensures LocksShut(DoAttempt(s, t))
  {
    hide Shut, Enter;
    var th := s.threads[t];
    var l := s.locks.Of(th.side);
    LocksShutAt(s, th.side);
    if !(th.async && l.blockWeak) {
      EnterShuts(l, t, th.async);
      ShutWith(s, DoAttempt(s, t), th.side, Enter(l, t, th.async));
    }
  }

  lemma UnlockShuts(s: State, t: Tid)
    requires LocksShut(s) && t < |s.threads|
    ensures LocksShut(DoUnlockFair(s, t))
  {
    hide Shut, Release;
    var d := s.threads[t].side;
    LocksShutAt(s, d);
    ReleaseShuts(s.locks.Of(d));
    ShutWith(s, DoUnlockFair(s, t), d, Release(s.locks.Of(d)));
  }

  lemma CheckShuts(s: State, t: Tid, grown: Ring)
    requires LocksShut(s) && t < |s.threads|
    ensures LocksShut(DoCheck(s, t, grown))
  {
    hide Shut, Block, AbandonAll, AtLimit;
    var d := s.threads[t].side;
    BlockShuts(s.locks.Of(d));
    if DoCheck(s, t, grown).locks != s.locks { ShutWith(s, DoCheck(s, t, grown), d, Block(s.locks.Of(d))); }
  }

  lemma ResumeShuts(s: State, t: Tid)
    requires LocksShut(s) && t < |s.threads|
    ensures LocksShut(DoResume(s, t))
  {
    var d := s.threads[t].side;
    var l := s.locks.Of(d);
    LocksShutAt(s, d);
    if s.threads[t].pc != Abandoned { ShutWith(s, DoResume(s, t), d, if l.handoff.Some? then Take(l) else l); }
  }

  lemma AllowShuts(s: State, t: Tid)
    requires LocksShut(s) && t < |s.threads|
    ensures LocksShut(DoAllowOther(s, t))
  {
  }

  /** Every step keeps it. */
  lemma StepShuts(s: State, a: Action, s': State)
    requires Inv(s) && Next(s, a, s') && LocksShut(s)
    ensures LocksShut(s')
  {
    hide Inv, Shut, DoAttempt, DoCheck, DoUnlockFair, DoResume, DoAllowOther, Enqueued, Dequeued, MayWake, LocksShut;
    Parts(s);
    match a {
      case Attempt(t) => AttemptShuts(s, t);
      case Resume(t) => ResumeShuts(s, t);
      case Check(t, grown) => CheckShuts(s, t, grown);
      case AllowOther(t) => AllowShuts(s, t);
      case UnlockFair(t) => UnlockShuts(s, t);
      case _ => SameLocks(s, s');
    }
  }

  lemma SameLocks(s: State, s': State)
    requires LocksShut(s) && s'.locks == s.locks
    ensures LocksShut(s')
  {
  }

  // ---------- while a thread waits ----------

  /** The thread having the mutex let weak requests of side `d` in and is about to signal. */
  ghost predicate Serving(s: State, d: Side) {
    s.mutex.Some? && s.mutex.value < |s.threads| && s.threads[s.mutex.value].pc == Ready && s.threads[s.mutex.value].side == Other(d)
  }

  /** Weak requests are blocked on the side of a thread at its limit, until it is about to be signalled. */
  ghost predicate Guarded(s: State, th: Thread) {
    match th.pc
    case Limited => s.flags.Of(th.side)
    case Waiting => s.flags.Of(th.side) || Serving(s, th.side)
    case _ => true
  }

  ghost predicate AllGuarded(s: State) { forall t :: 0 <= t < |s.threads| ==> Guarded(s, s.threads[t]) }

  /** A flag is cleared only by a thread of the other side, which is then about to signal. */
  lemma StepFlags(s: State, a: Action, s': State, d: Side)
    requires Inv(s) && Next(s, a, s') && s.flags.Of(d)
    ensures s'.flags.Of(d) || (a.AllowOther? && a.t < |s.threads| && s.threads[a.t].side == Other(d))
  {
    hide Inv, DoAttempt, DoUnlockFair, DoResume, Enqueued, Dequeued, MayWake, Block, AbandonAll, AtLimit, Enter, Release, Allow;
    Parts(s);
    if a.Attempt? || a.UnlockFair? || a.Resume? { LockFlags(s, a, s'); }
  }

  lemma LockFlags(s: State, a: Action, s': State)
    requires Next(s, a, s') && (a.Attempt? || a.UnlockFair? || a.Resume?)
    ensures s'.flags == s.flags && s'.mutex == s.mutex
  {
  }

  lemma AllowServes(s: State, t: Tid, s': State)
    requires Inv(s) && Next(s, AllowOther(t), s')
    ensures Serving(s', Other(s.threads[t].side))
  {
    assert Holds(s, Mutex);
    assert HoldsMutex(s.threads[t].pc);
  }

  lemma MutexPart(s: State)
    requires Inv(s)
    ensures MutexHeld(s.threads, s.mutex)
  {
    assert Holds(s, Mutex);
  }

  /** Only the thread that has the mutex gives it away. */
  lemma MutexStays(s: State, a: Action, s': State)
    requires Inv(s) && Next(s, a, s') && s.mutex.Some? && (a.CloseLoop? || (!a.Close? && a.t != s.mutex.value))
    ensures s'.mutex == s.mutex
  {
    hide Inv, DoAttempt, DoUnlockFair, DoResume, Enqueued, Dequeued, MayWake, Block, AbandonAll, AtLimit, Enter, Release, Allow;
    Parts(s);
    MutexPart(s);
    if a.Attempt? || a.UnlockFair? || a.Resume? { LockFlags(s, a, s'); }
  }

  lemma CheckGuards(s: State, t: Tid, grown: Ring)
    requires t < |s.threads| && DoCheck(s, t, grown).threads[t].pc == Limited && s.threads[t].pc == Checking
    ensures DoCheck(s, t, grown).flags.Of(s.threads[t].side)
  {
    hide Block, AbandonAll, AtLimit;
  }

  /** A thread that has found the limit has the mutex, so nobody lets weak requests in. */
  lemma LimitedGuarded(s: State, a: Action, s': State, t: Tid)
    requires Inv(s) && Next(s, a, s') && t < |s.threads| && Guarded(s, s.threads[t]) && ThreadStep(s, a, s', t)
    requires s'.threads[t].pc == Limited
    ensures Guarded(s', s'.threads[t])
  {
    hide Inv, Next;
    var d := s.threads[t].side;
    if s.threads[t].pc == Limited {
      StepFlags(s, a, s', d);
      MovingHasMutex(s, a, s', t);
    } else {
      CheckedGuarded(s, a, s', t);
    }
  }

  lemma MovingHasMutex(s: State, a: Action, s': State, t: Tid)
    requires Inv(s) && Next(s, a, s') && t < |s.threads| && s.threads[t].pc == Limited
    ensures !a.AllowOther?
  {
    assert Holds(s, Mutex);
    if a.AllowOther? { assert HoldsMutex(s.threads[a.t].pc) && HoldsMutex(s.threads[t].pc); }
  }

  lemma CheckedGuarded(s: State, a: Action, s': State, t: Tid)
    requires Next(s, a, s') && t < |s.threads| && ThreadStep(s, a, s', t)
    requires s.threads[t].pc != Limited && s'.threads[t].pc == Limited
    ensures Guarded(s', s'.threads[t])
  {
    hide DoCheck;
    assert a.Check? && a.t == t;
    CheckGuards(s, t, a.grown);
  }

  /** A thread that waits is guarded, or the one about to signal has not signalled yet. */
  lemma WaitingGuarded(s: State, a: Action, s': State, t: Tid)
    requires Inv(s) && Next(s, a, s') && t < |s.threads| && Guarded(s, s.threads[t]) && ThreadStep(s, a, s', t)
    requires s'.threads[t].pc == Waiting
    ensures Guarded(s', s'.threads[t])
  {
    hide Inv, Next, Serving;
    var d := s.threads[t].side;
    assert s'.threads[t].side == d;
    if s.flags.Of(d) {
      StepFlags(s, a, s', d);
      if a.AllowOther? && a.t < |s.threads| && s.threads[a.t].side == Other(d) { AllowServes(s, a.t, s'); }
    } else {
      assert s'.threads[t] == s.threads[t];
      ServingStays(s, a, s', t);
    }
  }

  lemma ServingStays(s: State, a: Action, s': State, t: Tid)
    requires Inv(s) && Next(s, a, s') && t < |s.threads| && s.threads[t].pc == Waiting && Serving(s, s.threads[t].side)
    requires |s'.threads| == |s.threads| && s'.threads[t].pc == Waiting
    ensures Serving(s', s.threads[t].side)
  {
    hide Inv, Next;
    var h := s.mutex.value;
    HolderStays(s, a, s', t);
    MutexStays(s, a, s');
    StepThread(s, a, s', h);
  }

  /** The thread about to signal wakes the one that waits. */
  lemma HolderStays(s: State, a: Action, s': State, t: Tid)
    requires Inv(s) && Next(s, a, s') && t < |s.threads| && s.threads[t].pc == Waiting && Serving(s, s.threads[t].side)
    requires |s'.threads| == |s.threads| && s'.threads[t].pc == Waiting
    ensures a.CloseLoop? || (!a.Close? && a.t != s.mutex.value)
  {
    hide Inv, DoAttempt, DoUnlockFair, DoResume, Enqueued, Dequeued, Block, AbandonAll, AtLimit, Enter, Release, Allow;
    Parts(s);
    WaiterAtLimit(s, t);
  }

  lemma StepGuards(s: State, a: Action, s': State)
    requires Inv(s) && Next(s, a, s') && AllGuarded(s)
    ensures AllGuarded(s')
  {
    hide Inv, Next, ThreadStep, Guarded;
    SameThreads(s, a, s');
    forall t | 0 <= t < |s'.threads|
      ensures Guarded(s', s'.threads[t])
    {
      StepThread(s, a, s', t);
      if s'.threads[t].pc == Limited {
        LimitedGuarded(s, a, s', t);
      } else if s'.threads[t].pc == Waiting {
        WaitingGuarded(s, a, s', t);
      } else {
        Elsewhere(s', s'.threads[t]);
      }
    }
  }

  lemma Elsewhere(s: State, th: Thread)
    requires th.pc != Limited && th.pc != Waiting
    ensures Guarded(s, th)
  {
  }

  // ---------- over every run ----------

  lemma {:induction false} RunGuards(states: seq<State>, actions: seq<Action>, i: nat)
    requires Run(states, actions) && i < |states|
    ensures LocksShut(states[i]) && AllGuarded(states[i])
  {
    hide Inv, Next, LocksShut, AllGuarded;
    if i == 0 {
      StartGuards(states[0]);
    } else {
      RunGuards(states, actions, i - 1);
      RunInv(states, actions, i - 1);
      StepShuts(states[i - 1], actions[i - 1], states[i]);
      StepGuards(states[i - 1], actions[i - 1], states[i]);
    }
  }

  lemma StartGuards(s: State)
    requires Init(s)
    ensures LocksShut(s) && AllGuarded(s)
  {
  }

  /** While a thread waits and none of the other side is about to signal it, weak requests of its side are blocked and none is queued. */
  lemma WaiterBlocksWeak(states: seq<State>, actions: seq<Action>, i: nat, t: Tid)
    requires Run(states, actions) && i < |states| && t < |states[i].threads| && states[i].threads[t].pc == Waiting
    requires var s := states[i]; forall u :: 0 <= u < |s.threads| && s.threads[u].side != s.threads[t].side ==> s.threads[u].pc != Ready
    ensures var s := states[i]; var l := s.locks.Of(s.threads[t].side);
      l.blockWeak && forall k :: 0 <= k < |l.queue| ==> !l.queue[k].weak
  {
    var s := states[i];
    RunGuards(states, actions, i);
    RunInv(states, actions, i);
    Parts(s);
    assert Guarded(s, s.threads[t]);
    LocksShutAt(s, s.threads[t].side);
  }

  /** No call of add or poll waits for others: when no thread can take a step by itself, none is inside. */
  lemma AsyncNeverWaits(states: seq<State>, actions: seq<Action>, i: nat, t: Tid)
    requires Run(states, actions) && i < |states| && Stuck(states[i])
    requires t < |states[i].threads| && states[i].threads[t].async
    ensures states[i].threads[t].pc == Idle
  {
    hide Inv, Next, Stuck, LocksShut, AllGuarded;
    var s := states[i];
    RunInv(states, actions, i);
    StuckAtRest(s, t);
    if s.threads[t].pc == Waiting {
      Parts(s);
      assert PcOk(s, s.threads[t]);
    } else if s.threads[t].pc == Queued {
      var o := StuckBehindWaiter(s, t);
      NobodyReady(s);
      WaiterBlocksWeak(states, actions, i, o);
      QueuedInLock(s, t);
    }
  }

  lemma NobodyReady(s: State)
    requires Inv(s) && Stuck(s)
    ensures forall u :: 0 <= u < |s.threads| ==> s.threads[u].pc != Ready
  {
    hide Inv, Stuck;
    forall u | 0 <= u < |s.threads|
      ensures s.threads[u].pc != Ready
    {
      StuckAtRest(s, u);
    }
  }

  lemma QueuedInLock(s: State, t: Tid)
    requires Inv(s) && t < |s.threads| && s.threads[t].pc == Queued
    ensures Request(s.threads[t].ticket, t, s.threads[t].async) in s.locks.Of(s.threads[t].side).queue
  {
    assert Holds(s, LockPart(s.threads[t].side));
    assert RoleOf(s.threads[t], s.threads[t].side).InQueue?;
  }
}
