/** Refusals are honest, the queue never deadlocks, and calls always come to an end. */
module QueueProgress {
  import opened Ring
  import opened LockValue
  import opened Options
  import opened QueueProtocol
  import opened QueueSafety
  import opened QueueSteps
  import opened QueueTheorems
  import opened QueueThreads

  // ---------- BQ_FULL and BQ_EMPTY ----------

  /** The call is bound to answer BQ_FULL or BQ_EMPTY, or may still. */
  predicate Refused(pc: Pc) {
    || pc == Limited || pc == Abandoned
    || ((pc.Failing? || pc.Failed? || pc.Returning?) && (pc.status == Full || pc.status == Empty))
  }

  /** A call becomes refused only in a state at its limit, even when its weak lock request is what was refused. */
  lemma RefusedAtLimit(s: State, a: Action, s': State, t: Tid)
    requires t < |s.threads| && ThreadStep(s, a, s', t) && !Refused(s.threads[t].pc)
    ensures Refused(s'.threads[t].pc) ==> AtLimit(s, s'.threads[t].side)
  {
  }

  /** Thread `t` is in a call in all states from `i` to `j`. */
  ghost predicate InCall(states: seq<State>, t: Tid, i: nat, j: nat)
    requires i <= j < |states|
  {
    forall k :: i <= k <= j ==> t < |states[k].threads| && states[k].threads[t].pc != Idle
  }

  /**
   Honest refusals: a call that began in state `i` and answers BQ_FULL or BQ_EMPTY in state `j` saw, in
   between, a state with the bounded queue full, or the queue empty.
   */
  lemma {:induction false} RefusalIsHonest(states: seq<State>, actions: seq<Action>, t: Tid, i: nat, j: nat)
    requires Run(states, actions) && i <= j < |states|
    requires InCall(states, t, i, j) && states[i].threads[t].pc == Entered
    ensures states[j].threads[t].side == states[i].threads[t].side
    ensures Refused(states[j].threads[t].pc) ==> exists k :: i <= k <= j && AtLimit(states[k], states[i].threads[t].side)
  {
    hide Inv, Next, Init, Refused, AtLimit, ThreadStep;
    if i < j {
      RefusalIsHonest(states, actions, t, i, j - 1);
      RunInv(states, actions, j - 1);
      var s, s' := states[j - 1], states[j];
      StepThread(s, actions[j - 1], s', t);
      SameSide(s, actions[j - 1], s', t);
      if Refused(s'.threads[t].pc) && !Refused(s.threads[t].pc) {
        RefusedAtLimit(s, actions[j - 1], s', t);
        assert AtLimit(states[j - 1], states[i].threads[t].side);
      }
    } else {
      EnteredNotRefused(states[i].threads[t].pc);
    }
  }

  lemma EnteredNotRefused(pc: Pc)
    requires pc == Entered
    ensures !Refused(pc)
  {
  }

  /** A call stays on its side. */
  lemma SameSide(s: State, a: Action, s': State, t: Tid)
    requires t < |s.threads| && ThreadStep(s, a, s', t) && s.threads[t].pc != Idle
    ensures |s'.threads| == |s.threads| && s'.threads[t].side == s.threads[t].side
  {
  }

  /** The status says which limit it was. */
  lemma StatusMatchesSide(states: seq<State>, actions: seq<Action>, i: nat, t: Tid)
    requires Run(states, actions) && i < |states| && t < |states[i].threads| && states[i].threads[t].pc.Returning?
    ensures var s := states[i]; var th := s.threads[t];
      && (th.pc.status == Full ==> th.side == Producer && th.async)
      && (th.pc.status == Empty ==> th.side == Consumer && th.async)
      && (th.pc.status == Closed ==> s.closed)
  {
    RunInv(states, actions, i);
    StatusFits(states[i], t);
  }

  lemma StatusFits(s: State, t: Tid)
    requires Inv(s) && t < |s.threads| && s.threads[t].pc.Returning?
    ensures s.threads[t].pc.status == Full ==> s.threads[t].side == Producer && s.threads[t].async
    ensures s.threads[t].pc.status == Empty ==> s.threads[t].side == Consumer && s.threads[t].async
    ensures s.threads[t].pc.status == Closed ==> s.closed
  {
    assert Holds(s, Places);
    assert PcOk(s, s.threads[t]);
  }

  // ---------- no deadlock ----------

  /** A step the program takes by itself, without a new call. */
  predicate Internal(a: Action) { !a.Call? && !a.Close? }

  predicate AtRest(pc: Pc) { pc == Idle || pc == Queued || pc == Waiting }

  ghost function SomeWake(s: State): (wake: Option<Tid>)
    ensures MayWake(s, wake)
  {
    if t :| 0 <= t < |s.threads| && s.threads[t].pc == Waiting then Some(t) else None
  }

  ghost function SomeGrown(r: Ring): (r': Ring)
    requires r.Valid()
    ensures r.IsFull() ==> GrownTo(r, r')
  {
    if r.IsFull() then Ring(Copied(r) + Copied(r), r.size, 0, r.size - 1) else r
  }

  /** The step that the thread having the mutex takes next. */
  ghost function MutexStep(s: State, t: Tid): (a: Action)
    requires s.ring.Valid() && t < |s.threads| && HoldsMutex(s.threads[t].pc)
    ensures Internal(a) && Enabled(s, a)
  {
    match s.threads[t].pc
    case Checking => Check(t, SomeGrown(s.ring))
    case Limited => Decide(t)
    case Woken => Recheck(t)
    case Moving => AllowOther(t)
    case Ready => Move(t, SomeWake(s))
    case Failing(_) => UnlockFair(t)
    case Failed(_) => UnlockMutex(t)
  }

  /** A thread not at rest takes a step, or another thread has the mutex it wants and takes one. */
  lemma CanStep(s: State, t: Tid) returns (a: Action)
    requires Inv(s) && t < |s.threads| && !AtRest(s.threads[t].pc)
    ensures Internal(a) && Enabled(s, a)
  {
    assert Holds(s, Mutex) && Holds(s, Elements);
    var pc := s.threads[t].pc;
    if s.mutex.Some? {
      a := MutexStep(s, s.mutex.value);
    } else if pc == Entered {
      a := Attempt(t);
    } else if pc == Granted || pc == Abandoned {
      a := Resume(t);
    } else if pc == Releasing {
      a := UnlockFair(t);
    } else if pc.Returning? {
      a := Return(t);
    } else {
      a := LockMutex(t);
    }
  }

  ghost predicate Stuck(s: State) {
    forall a: Action :: Internal(a) ==> !Enabled(s, a)
  }

  lemma StuckAtRest(s: State, t: Tid)
    requires Inv(s) && Stuck(s) && t < |s.threads|
    ensures AtRest(s.threads[t].pc)
  {
    if !AtRest(s.threads[t].pc) {
      var a := CanStep(s, t);
      assert false;
    }
  }

  /** A queued thread waits for one that is itself waiting at the limit of the queue. */
  lemma StuckBehindWaiter(s: State, t: Tid) returns (o: Tid)
    requires Inv(s) && Stuck(s) && t < |s.threads| && s.threads[t].pc == Queued
    ensures o < |s.threads| && s.threads[o].pc == Waiting && s.threads[o].side == s.threads[t].side
  {
    var d := s.threads[t].side;
    var l := s.locks.Of(d);
    assert Holds(s, LockPart(d));
    assert RoleOf(s.threads[t], d).InQueue?;
    if l.handoff.Some? {
      assert RoleOf(s.threads[l.handoff.value.tid], d) == Handed;
      StuckAtRest(s, l.handoff.value.tid);
    }
    o := l.owner.value;
    assert RoleOf(s.threads[o], d) == Owner;
    StuckAtRest(s, o);
  }

  lemma LoopGoesOn(s: State)
    requires s.closer == Looping
    ensures Enabled(s, CloseLoop(SomeWake(s)))
  {
  }

  /**
   No deadlock.  When no thread can take a step by itself, every caller still inside is a put that
   waits on a full queue, a take that waits on an empty one, or queued behind such a caller; and if the
   queue was closed, nobody is inside and the close has returned.
   */
  lemma NoDeadlock(states: seq<State>, actions: seq<Action>, i: nat)
    requires Run(states, actions) && i < |states| && Stuck(states[i])
    ensures var s := states[i];
      forall t :: 0 <= t < |s.threads| && s.threads[t].pc != Idle ==> AtRest(s.threads[t].pc) && AtLimit(s, s.threads[t].side)
    ensures states[i].closed ==> states[i].closer == Finished && AllIdle(states[i])
  {
    RunInv(states, actions, i);
    StuckIsAtLimit(states[i]);
  }

  ghost predicate AllIdle(s: State) { forall t :: 0 <= t < |s.threads| ==> s.threads[t].pc == Idle }

  lemma StuckIsAtLimit(s: State)
    requires Inv(s) && Stuck(s)
    ensures forall t :: 0 <= t < |s.threads| && s.threads[t].pc != Idle ==>
              AtRest(s.threads[t].pc) && AtLimit(s, s.threads[t].side)
    ensures s.closed ==> s.closer == Finished && AllIdle(s)
  {
    assert Holds(s, Part.Close);
    if s.closer == Looping {
      LoopGoesOn(s);
      assert false;
    }
    forall t | 0 <= t < |s.threads| && s.threads[t].pc != Idle
      ensures AtRest(s.threads[t].pc) && AtLimit(s, s.threads[t].side) && !s.closed
    {
      StuckAtRest(s, t);
      var o := t;
      if s.threads[t].pc == Queued {
        o := StuckBehindWaiter(s, t);
      }
      WaiterAtLimit(s, o);
    }
    if s.closed {
      IdleCount(s.threads);
    }
  }

  // ---------- calls come to an end ----------

  function PcRank(pc: Pc): (n: nat) {
    match pc
    case Idle => 0
    case Returning(_) => 3
    case Failed(_) => 4
    case Abandoned => 4
    case Releasing => 4
    case Failing(_) => 5
    case Ready => 5
    case Moving => 6
    case Woken => 7
    case Signalled => 8
    case Waiting => 9
    case Limited => 10
    case Checking => 11
    case Holding => 12
    case Granted => 13
    case Queued => 14
    case Entered => 15
  }

  function CloserRank(c: Closer): (n: nat) {
    match c case Finished => 0 case Asleep => 1 case Looping => 2 case Open => 3
  }

  function RankSum(threads: seq<Thread>): (n: nat) {
    if threads == [] then 0 else RankSum(threads[..|threads| - 1]) + PcRank(threads[|threads| - 1].pc)
  }

  /** How many steps the callers inside and the closing can still take by themselves, at most. */
  function Rank(s: State): (n: nat) { RankSum(s.threads) + CloserRank(s.closer) }

  /** A step of one thread lowers its rank, one that returns by three, and raises nobody's. */
  lemma ThreadRank(s: State, a: Action, s': State, t: Tid)
    requires t < |s.threads| && ThreadStep(s, a, s', t) && Internal(a)
    ensures |s'.threads| == |s.threads|
    ensures PcRank(s'.threads[t].pc) + (if !a.CloseLoop? && a.t == t then Drop(a) else 0) <= PcRank(s.threads[t].pc)
  {
  }

  function Drop(a: Action): (n: nat) { if a.Return? then 3 else 1 }

  /** Where no rank rises and that of `t` falls by `n`, so does the sum. */
  lemma {:induction false} SumFalls(threads: seq<Thread>, threads': seq<Thread>, t: Tid, n: nat)
    requires |threads'| == |threads|
    requires forall u :: 0 <= u < |threads| ==> PcRank(threads'[u].pc) + (if u == t then n else 0) <= PcRank(threads[u].pc)
    ensures RankSum(threads') + (if t < |threads| then n else 0) <= RankSum(threads)
  {
    if threads != [] {
      var k := |threads| - 1;
      SumFalls(threads[..k], threads'[..k], t, n);
    }
  }

  lemma CloserStep(s: State, a: Action, s': State)
    requires Next(s, a, s') && Internal(a) && s.ring.Valid()
    ensures CloserRank(s'.closer) + (if a.CloseLoop? then 1 else 0) <= CloserRank(s.closer) + if a.Return? then 1 else 0
  {
    hide Enqueued, Dequeued, Enter, Take, Release, Block, AbandonAll, IsFree, AtLimit;
  }

  /** Every step lowers the rank. */
  lemma StepRank(s: State, a: Action, s': State)
    requires Inv(s) && Next(s, a, s') && Internal(a)
    ensures Rank(s') < Rank(s)
  {
    hide Inv, ThreadStep, PcRank, RankSum, CloserRank;
    Parts(s);
    CloserStep(s, a, s');
    var t := if a.CloseLoop? then |s.threads| else a.t;
    forall u | 0 <= u < |s.threads|
      ensures |s'.threads| == |s.threads| && PcRank(s'.threads[u].pc) + (if u == t then Drop(a) else 0) <= PcRank(s.threads[u].pc)
    {
      StepThread(s, a, s', u);
      ThreadRank(s, a, s', u);
    }
    SameThreads(s, a, s');
    SumFalls(s.threads, s'.threads, t, Drop(a));
  }

  lemma SameThreads(s: State, a: Action, s': State)
    requires Inv(s) && Next(s, a, s')
    ensures |s'.threads| == |s.threads|
  {
    if 0 < |s.threads| { OneThread(s, a, s'); } else { NoThread(s, a, s'); }
  }

  lemma OneThread(s: State, a: Action, s': State)
    requires Inv(s) && Next(s, a, s') && 0 < |s.threads|
    ensures |s'.threads| == |s.threads|
  {
    hide Inv, Next, OwnStep, OtherStep;
    StepThread(s, a, s', 0);
  }

  /** Without threads there is just the closing. */
  lemma NoThread(s: State, a: Action, s': State)
    requires Next(s, a, s') && |s.threads| == 0
    ensures |s'.threads| == |s.threads|
  {
    hide DoAttempt, DoResume, DoLockMutex, DoCheck, DoDecide, DoRecheck, DoAllowOther, DoMove, DoUnlockFair, DoReturn, SetPc;
    assert a.Close? || a.CloseLoop?;
  }

  /**
   From any state `i` of a run on, open or closed, with no new calls, at most `Rank` more steps are taken. With
   `NoDeadlock`, every caller then has returned or waits at its limit, and in a closed queue all have returned.
   */
  lemma {:induction false} CallsEnd(states: seq<State>, actions: seq<Action>, i: nat, j: nat)
    requires Run(states, actions) && i <= j < |states|
    requires forall k :: i <= k < j ==> Internal(actions[k])
    ensures j - i + Rank(states[j]) <= Rank(states[i])
  {
    hide Inv, Next, Init, Rank;
    if i < j {
      CallsEnd(states, actions, i, j - 1);
      RunInv(states, actions, j - 1);
      StepRank(states[j - 1], actions[j - 1], states[j]);
    }
  }

  /** What is enabled can be done. */
  lemma Steps(s: State, a: Action) returns (s': State)
    requires Enabled(s, a) && s.ring.Valid()
    ensures Next(s, a, s')
  {
    match a {
      case Close => s' := s.(closed := true, closer := Looping);
      case CloseLoop(wake) => s' := DoCloseLoop(s, wake);
      case Call(t, side, async, element) => s' := DoCall(s, t, side, async, element);
      case Attempt(t) => s' := DoAttempt(s, t);
      case Resume(t) => s' := DoResume(s, t);
      case LockMutex(t) => s' := DoLockMutex(s, t);
      case Check(t, grown) => s' := DoCheck(s, t, grown);
      case Decide(t) => s' := DoDecide(s, t);
      case Recheck(t) => s' := DoRecheck(s, t);
      case AllowOther(t) => s' := DoAllowOther(s, t);
      case Move(t, wake) => s' := DoMove(s, t, wake);
      case UnlockFair(t) => s' := DoUnlockFair(s, t);
      case UnlockMutex(t) => s' := SetPc(s, t, Returning(s.threads[t].pc.status)).(mutex := None);
      case Return(t) => s' := DoReturn(s, t);
    }
  }

  /** Every run goes on, without new calls, to a state in which no thread can step. */
  lemma {:induction false} ComesToRest(states: seq<State>, actions: seq<Action>) returns (states': seq<State>, actions': seq<Action>)
    requires Run(states, actions)
    ensures Run(states', actions') && states <= states' && actions <= actions' && Stuck(states'[|actions'|])
    ensures forall k :: |actions| <= k < |actions'| ==> Internal(actions'[k])
    decreases Rank(states[|actions|])
  {
    hide Inv, Next, Init, Rank, Enabled;
    var s := states[|actions|];
    RunInv(states, actions, |actions|);
    if Stuck(s) {
      states', actions' := states, actions;
    } else {
      var a: Action :| Internal(a) && Enabled(s, a);
      Parts(s);
      var s' := Steps(s, a);
      StepRank(s, a, s');
      PathOn(states, actions, a, s');
      states', actions' := ComesToRest(states + [s'], actions + [a]);
    }
  }

  lemma PathOn(states: seq<State>, actions: seq<Action>, a: Action, s': State)
    requires Run(states, actions) && Next(states[|actions|], a, s')
    ensures Run(states + [s'], actions + [a])
  {
    hide Next, Init;
  }
}
