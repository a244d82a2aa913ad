/** What the blocking queue promises, over every run. */
module QueueTheorems {
  import opened Ring
  import opened LockValue
  import opened Options
  import opened QueueProtocol
  import opened QueueSafety
  import opened QueueSteps

  /** A run: states joined by steps of any threads, in any order. */
  ghost predicate Path(states: seq<State>, actions: seq<Action>) {
    && |states| == |actions| + 1
    && (forall i :: 0 <= i < |actions| ==> Next(states[i], actions[i], states[i + 1]))
  }

  ghost predicate Run(states: seq<State>, actions: seq<Action>) {
    Path(states, actions) && Init(states[0])
  }

  lemma {:induction false} PathInv(states: seq<State>, actions: seq<Action>, i: nat)
    requires Path(states, actions) && Inv(states[0]) && i < |states|
    ensures Inv(states[i])
  {
    if 0 < i {
      PathInv(states, actions, i - 1);
      StepKeeps(states[i - 1], actions[i - 1], states[i]);
    }
  }

  lemma RunInv(states: seq<State>, actions: seq<Action>, i: nat)
    requires Run(states, actions) && i < |states|
    ensures Inv(states[i])
  {
    InitInv(states[0]);
    PathInv(states, actions, i);
  }

  // ---------- elements ----------

  /** First in, first out: the elements handed out are the first ones put in, and the buffer holds the rest in order. */
  lemma FirstInFirstOut(states: seq<State>, actions: seq<Action>, i: nat)
    requires Run(states, actions) && i < |states|
    ensures states[i].ring.Valid()
    ensures states[i].delivered + states[i].ring.Contents() == states[i].added
    ensures states[i].delivered <= states[i].added
  {
    RunInv(states, actions, i);
    assert Holds(states[i], Elements);
  }

  lemma StepCapacity(s: State, a: Action, s': State)
    requires Inv(s) && Next(s, a, s') && s.bounded
    ensures s'.bounded && |s'.ring.cells| == |s.ring.cells|
  {
    assert Holds(s, Elements);
  }

  /** A bounded queue keeps the capacity it was created with and never holds more. */
  lemma {:induction false} CapacityKept(states: seq<State>, actions: seq<Action>, i: nat)
    requires Run(states, actions) && i < |states| && states[0].bounded
    ensures states[i].bounded && |states[i].ring.cells| == |states[0].ring.cells|
    ensures states[i].ring.size <= |states[0].ring.cells|
  {
    RunInv(states, actions, i);
    assert Holds(states[i], Elements);
    if 0 < i {
      CapacityKept(states, actions, i - 1);
      RunInv(states, actions, i - 1);
      StepCapacity(states[i - 1], actions[i - 1], states[i]);
    }
  }

  lemma ClosedStep(s: State, a: Action, s': State)
    requires Inv(s) && Next(s, a, s') && s.closed
    ensures s'.closed && s'.ring == s.ring && s'.added == s.added && s'.delivered == s.delivered
  {
    if a.Move? {
      ReadyIsOpen(s, a.t);
    }
  }

  lemma ReadyIsOpen(s: State, t: Tid)
    requires Inv(s) && t < |s.threads| && s.threads[t].pc == Ready
    ensures !s.closed
  {
    assert Holds(s, Places);
    assert PcOk(s, s.threads[t]);
  }

  /** Nothing moves once the queue is closed. */
  lemma {:induction false} ClosedIsFinal(states: seq<State>, actions: seq<Action>, i: nat, j: nat)
    requires Run(states, actions) && i <= j < |states| && states[i].closed
    ensures states[j].closed && states[j].ring == states[i].ring
    ensures states[j].added == states[i].added && states[j].delivered == states[i].delivered
  {
    if i < j {
      ClosedIsFinal(states, actions, i, j - 1);
      RunInv(states, actions, j - 1);
      ClosedStep(states[j - 1], actions[j - 1], states[j]);
    }
  }

  // ---------- wake-ups ----------

  lemma WaiterAtLimit(s: State, t: Tid)
    requires Inv(s) && t < |s.threads| && s.threads[t].pc == Waiting
    ensures s.threads[t].side == Producer ==> s.bounded && s.ring.IsFull()
    ensures s.threads[t].side == Consumer ==> s.ring.size == 0
    ensures forall u :: 0 <= u < |s.threads| && s.threads[u].pc == Waiting ==> u == t
  {
    assert Holds(s, Places);
    assert PcOk(s, s.threads[t]);
    forall u | 0 <= u < |s.threads| && s.threads[u].pc == Waiting
      ensures u == t
    {
      OneWaits(s, t, u);
    }
  }

  /** A caller asleep and not signalled has a reason to sleep; two never sleep at once. */
  lemma WaitersAreAtLimit(states: seq<State>, actions: seq<Action>, i: nat, t: Tid)
    requires Run(states, actions) && i < |states| && t < |states[i].threads| && states[i].threads[t].pc == Waiting
    ensures AtLimit(states[i], states[i].threads[t].side)
    ensures forall u :: 0 <= u < |states[i].threads| && states[i].threads[u].pc == Waiting ==> u == t
  {
    RunInv(states, actions, i);
    WaiterAtLimit(states[i], t);
  }

  /**
   A caller that wakes and does not see the queue closed finds room or an element without looking, as
   does every caller about to move one; and a thread resumed by an unlock finds the fair lock free.
   */
  lemma NoRecheckNeeded(states: seq<State>, actions: seq<Action>, i: nat, t: Tid)
    requires Run(states, actions) && i < |states| && t < |states[i].threads|
    ensures var s := states[i]; var th := s.threads[t];
      && (th.pc in {Signalled, Woken} && !s.closed ==> CanMove(s, th.side))
      && (th.pc in {Moving, Ready} ==> CanMove(s, th.side))
      && (th.pc == Granted ==> !s.locks.Of(th.side).acquired)
  {
    RunInv(states, actions, i);
    WokenCanMove(states[i], t);
  }

  lemma WokenCanMove(s: State, t: Tid)
    requires Inv(s) && t < |s.threads|
    ensures s.threads[t].pc in {Signalled, Woken} && !s.closed ==> CanMove(s, s.threads[t].side)
    ensures s.threads[t].pc in {Moving, Ready} ==> CanMove(s, s.threads[t].side)
    ensures s.threads[t].pc == Granted ==> !s.locks.Of(s.threads[t].side).acquired
  {
    assert Holds(s, Places) && Holds(s, LockPart(s.threads[t].side));
    assert PcOk(s, s.threads[t]);
    assert s.threads[t].pc == Granted ==> RoleOf(s.threads[t], s.threads[t].side) == Handed;
  }

  /** Weak requests are blocked only while the queue is full, for producers, or empty, for consumers. */
  lemma BlockedIsAtLimit(states: seq<State>, actions: seq<Action>, i: nat, d: Side)
    requires Run(states, actions) && i < |states| && states[i].locks.Of(d).blockWeak
    ensures AtLimit(states[i], d)
  {
    RunInv(states, actions, i);
    assert Holds(states[i], Blocking);
  }

  // ---------- the fair locks ----------

  /** At most one thread holds each fair lock, and at most one the mutex. */
  lemma MutualExclusion(states: seq<State>, actions: seq<Action>, i: nat, t: Tid, u: Tid)
    requires Run(states, actions) && i < |states| && t < |states[i].threads| && u < |states[i].threads|
    requires var th, uh := states[i].threads[t], states[i].threads[u];
      (HoldsLock(th.pc) && HoldsLock(uh.pc) && th.side == uh.side) || (HoldsMutex(th.pc) && HoldsMutex(uh.pc))
    ensures t == u
  {
    RunInv(states, actions, i);
    OneHolds(states[i], t, u);
  }

  lemma OneHolds(s: State, t: Tid, u: Tid)
    requires Inv(s) && t < |s.threads| && u < |s.threads|
    requires || (HoldsLock(s.threads[t].pc) && HoldsLock(s.threads[u].pc) && s.threads[t].side == s.threads[u].side)
             || (HoldsMutex(s.threads[t].pc) && HoldsMutex(s.threads[u].pc))
    ensures t == u
  {
    assert Holds(s, Mutex) && Holds(s, LockPart(s.threads[t].side));
    if HoldsLock(s.threads[t].pc) {
      assert RoleOf(s.threads[t], s.threads[t].side) == Owner;
    }
  }

  /** What one step can do to a fair lock. */
  ghost predicate LockStep(s: State, a: Action, l: Lock, l': Lock) {
    || l' == l
    || l' == Allow(l)
    || l' == Block(l)
    || (a.Attempt? && a.t < |s.threads| && l' == Enter(l, a.t, s.threads[a.t].async))
    || (l.handoff.Some? && l' == Take(l))
    || (l.acquired && l' == Release(l))
  }

  lemma StepLock(s: State, a: Action, s': State, d: Side)
    requires Inv(s) && Next(s, a, s')
    ensures LockStep(s, a, s.locks.Of(d), s'.locks.Of(d))
  {
    hide Inv, Enter, Take, Release, Block, DoCheck, DoAttempt, DoResume, DoAllowOther, DoUnlockFair, DoMove;
    if a.UnlockFair? {
      OwnerAcquired(s, a.t);
      UnlockStepLock(s, a.t, d);
    } else if a.Move? {
      ValidRing(s);
      MoveStepLock(s, a.t, a.wake, d);
    } else if a.Attempt? || a.Resume? {
      EntryStepLock(s, a, s', d);
    } else if a.Check? || a.AllowOther? {
      WeakStepLock(s, a, s', d);
    }
  }

  lemma ValidRing(s: State)
    requires Inv(s)
    ensures s.ring.Valid()
  {
    assert Holds(s, Elements);
  }

  lemma OwnerAcquired(s: State, t: Tid)
    requires Inv(s) && t < |s.threads| && HoldsLock(s.threads[t].pc)
    ensures s.locks.Of(s.threads[t].side).acquired
  {
    var d := s.threads[t].side;
    assert Holds(s, LockPart(d));
    assert RoleOf(s.threads[t], d) == Owner;
  }

  lemma UnlockStepLock(s: State, t: Tid, d: Side)
    requires Enabled(s, UnlockFair(t)) && s.locks.Of(s.threads[t].side).acquired
    ensures LockStep(s, UnlockFair(t), s.locks.Of(d), DoUnlockFair(s, t).locks.Of(d))
  {
    hide Release;
  }

  lemma MoveStepLock(s: State, t: Tid, wake: Option<Tid>, d: Side)
    requires Enabled(s, Move(t, wake)) && s.ring.Valid()
    ensures DoMove(s, t, wake).locks.Of(d) == s.locks.Of(d)
  {
    hide Enqueued, Dequeued;
  }

  lemma EntryStepLock(s: State, a: Action, s': State, d: Side)
    requires Next(s, a, s') && (a.Attempt? || a.Resume?)
    ensures LockStep(s, a, s.locks.Of(d), s'.locks.Of(d))
  {
    hide Enter, Take;
  }

  lemma WeakStepLock(s: State, a: Action, s': State, d: Side)
    requires Next(s, a, s') && (a.Check? || a.AllowOther?)
    ensures LockStep(s, a, s.locks.Of(d), s'.locks.Of(d))
  {
    hide Block, AbandonAll;
  }

  lemma LockCounted(s: State, d: Side)
    requires Inv(s)
    ensures Counted(s.locks.Of(d))
  {
    assert Holds(s, LockPart(d));
  }

  lemma AllowOrdered(l: Lock)
    requires Ordered(l)
    ensures Ordered(Allow(l))
  {
  }

  lemma StepOrdered(s: State, a: Action, s': State, d: Side)
    requires Inv(s) && Next(s, a, s') && Ordered(s.locks.Of(d))
    ensures Ordered(s'.locks.Of(d))
  {
    hide Inv, Next, Ordered, Enter, Take, Release, Block;
    var l, l' := s.locks.Of(d), s'.locks.Of(d);
    LockCounted(s, d);
    AllowOrdered(l);
    StepLock(s, a, s', d);
    if a.Attempt? && a.t < |s.threads| { EnterOrdered(l, a.t, s.threads[a.t].async); }
    if l.handoff.Some? { TakeOrdered(l); }
    if l.acquired { ReleaseOrdered(l); }
    BlockOrdered(l);
  }

  lemma InitOrdered(s: State, d: Side)
    requires Init(s)
    ensures Ordered(s.locks.Of(d))
  {
  }

  /** In every run, each fair lock serves its requests in order of arrival, less exactly the abandoned ones. */
  lemma {:induction false} ServedInOrder(states: seq<State>, actions: seq<Action>, i: nat, d: Side)
    requires Run(states, actions) && i < |states|
    ensures Ordered(states[i].locks.Of(d)) && Counted(states[i].locks.Of(d))
  {
    hide Inv, Next, Init, Ordered, Counted;
    RunInv(states, actions, i);
    LockCounted(states[i], d);
    if 0 == i {
      InitOrdered(states[0], d);
    } else {
      ServedInOrder(states, actions, i - 1, d);
      RunInv(states, actions, i - 1);
      StepOrdered(states[i - 1], actions[i - 1], states[i], d);
    }
  }

  /** No request overtakes an earlier one that is still wanted. */
  lemma NoOvertaking(states: seq<State>, actions: seq<Action>, i: nat, d: Side, early: nat, late: nat)
    requires Run(states, actions) && i < |states| && early < late
    requires late in states[i].locks.Of(d).served && early !in states[i].locks.Of(d).abandoned
    ensures early in states[i].locks.Of(d).served
  {
    ServedInOrder(states, actions, i, d);
    ServedBefore(states[i].locks.Of(d), early, late);
  }

  lemma ServedBefore(l: Lock, early: nat, late: nat)
    requires Ordered(l) && late in l.served && early < late && early !in l.abandoned
    ensures early in l.served
  {
    var s := Standing(l.arrivals, l.abandoned);
    StandingIncreases(l.arrivals, l.abandoned);
    var j :| 0 <= j < |l.served| && l.served[j] == late;
    assert s[j] == late;
    StandingHas(l.arrivals, l.abandoned, early);
    var i :| 0 <= i < |s| && s[i] == early;
    assert i < j;
    assert l.served[i] == early;
  }

  lemma {:induction false} StandingHas(n: nat, abandoned: set<nat>, k: nat)
    requires k < n && k !in abandoned
    ensures k in Standing(n, abandoned)
  {
    if k < n - 1 {
      StandingHas(n - 1, abandoned, k);
    }
  }
}
