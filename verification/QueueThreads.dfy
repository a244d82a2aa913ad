/** What one step of the queue does to one thread. */
module QueueThreads {
  import opened Ring
  import opened LockValue
  import opened Options
  import opened QueueProtocol
  import opened QueueSafety
  import opened QueueSteps

  /** What the thread that takes the step becomes; a refusal is taken only at the limit of the queue. */
  ghost predicate OwnStep(s: State, a: Action, th: Thread, th': Thread) {
    match a
    case Call(_, _, _, _) => th.pc == Idle && th'.pc == Entered
    case Attempt(_) =>
      && th.pc == Entered && th' == th.(ticket := th'.ticket, pc := th'.pc)
      && (th'.pc in {Holding, Queued} || (th'.pc == Returning(LimitStatus(th.side)) && AtLimit(s, th.side)))
    case Resume(_) =>
      || (th.pc == Granted && th' == th.(pc := Holding))
      || (th.pc == Abandoned && th' == th.(pc := Returning(LimitStatus(th.side))))
    case LockMutex(_) => th' == th.(pc := if th.pc == Holding then Checking else Woken) && th.pc in {Holding, Signalled}
    case Check(_, _) =>
      && th.pc == Checking && th' == th.(pc := th'.pc)
      && (th'.pc in {Failing(Closed), Moving} || (th'.pc == Limited && AtLimit(s, th.side)))
    case Decide(_) => th.pc == Limited && th' == th.(pc := if th.async then Failing(LimitStatus(th.side)) else Waiting)
    case Recheck(_) => th.pc == Woken && th' == th.(pc := th'.pc) && th'.pc in {Failing(Closed), Moving}
    case AllowOther(_) => th.pc == Moving && th' == th.(pc := Ready)
    case Move(_, _) => th.pc == Ready && th' == th.(pc := Releasing, element := th'.element)
    case UnlockFair(_) =>
      || (th.pc == Releasing && th' == th.(pc := Returning(Success)))
      || (th.pc.Failing? && th.pc.status != Success && th' == th.(pc := Failed(th.pc.status)))
    case UnlockMutex(_) => th.pc.Failed? && th.pc.status != Success && th' == th.(pc := Returning(th.pc.status))
    case Return(_) => th.pc.Returning? && th' == th.(pc := Idle)
    case _ => th' == th
  }

  /** What it does to any other: it is left alone, or woken in one way or another. */
  ghost predicate OtherStep(s: State, a: Action, th: Thread, th': Thread) {
    || th' == th
    || (a.Check? && th.pc == Queued && th' == th.(pc := Abandoned) && AtLimit(s, th.side))
    || (a.UnlockFair? && th.pc == Queued && th' == th.(pc := Granted))
    || ((a.Move? || a.CloseLoop?) && th.pc == Waiting && th' == th.(pc := Signalled))
  }

  ghost predicate ThreadStep(s: State, a: Action, s': State, t: Tid)
    requires t < |s.threads|
  {
    && |s'.threads| == |s.threads|
    && if !a.Close? && !a.CloseLoop? && a.t == t then OwnStep(s, a, s.threads[t], s'.threads[t])
       else OtherStep(s, a, s.threads[t], s'.threads[t])
  }

  lemma AttemptThread(s: State, u: Tid, t: Tid)
    requires BlocksHonestly(s) && Enabled(s, Attempt(u)) && t < |s.threads|
    ensures ThreadStep(s, Attempt(u), DoAttempt(s, u), t)
  {
  }

  lemma CheckThread(s: State, u: Tid, grown: Ring, t: Tid)
    requires Inv(s) && Enabled(s, Check(u, grown)) && t < |s.threads|
    ensures ThreadStep(s, Check(u, grown), DoCheck(s, u, grown), t)
  {
    if Drops(s, s.threads[u].side, t) { DroppedIsQueued(s, s.threads[u].side, t); }
    assert |AbandonAll(s, s.threads[u].side)| == |s.threads|;
  }

  /** The first in a lock's queue is a thread waiting for it. */
  lemma HeadWaits(s: State, d: Side)
    requires Inv(s) && s.locks.Of(d).queue != []
    ensures var w := s.locks.Of(d).queue[0].tid; w < |s.threads| && s.threads[w].pc == Queued
  {
    assert Holds(s, LockPart(d));
    assert RoleOf(s.threads[s.locks.Of(d).queue[0].tid], d).InQueue?;
  }

  lemma UnlockThread(s: State, u: Tid, t: Tid)
    requires Enabled(s, UnlockFair(u)) && PcOk(s, s.threads[u]) && t < |s.threads|
    requires var q := s.locks.Of(s.threads[u].side).queue; q != [] ==> q[0].tid < |s.threads| && s.threads[q[0].tid].pc == Queued
    ensures ThreadStep(s, UnlockFair(u), DoUnlockFair(s, u), t)
  {
  }

  lemma MoveThread(s: State, u: Tid, wake: Option<Tid>, t: Tid)
    requires s.ring.Valid() && Enabled(s, Move(u, wake)) && t < |s.threads|
    ensures ThreadStep(s, Move(u, wake), DoMove(s, u, wake), t)
  {
    hide Enqueued, Dequeued;
  }

  lemma LoopThread(s: State, wake: Option<Tid>, t: Tid)
    requires Enabled(s, CloseLoop(wake)) && t < |s.threads|
    ensures ThreadStep(s, CloseLoop(wake), DoCloseLoop(s, wake), t)
  {
  }

  lemma ResumeThread(s: State, a: Action, s': State, t: Tid)
    requires Next(s, a, s') && t < |s.threads| && (a.Resume? || a.LockMutex?)
    ensures ThreadStep(s, a, s', t)
  {
  }

  lemma DecideThread(s: State, a: Action, s': State, t: Tid)
    requires Next(s, a, s') && t < |s.threads| && (a.Decide? || a.Recheck? || a.AllowOther?)
    ensures ThreadStep(s, a, s', t)
  {
  }

  lemma ReturnThread(s: State, a: Action, s': State, t: Tid)
    requires Next(s, a, s') && t < |s.threads| && (a.Call? || a.Close? || a.Return?)
    ensures ThreadStep(s, a, s', t)
  {
  }

  lemma FailThread(s: State, u: Tid, s': State, t: Tid)
    requires Next(s, UnlockMutex(u), s') && PcOk(s, s.threads[u]) && t < |s.threads|
    ensures ThreadStep(s, UnlockMutex(u), s', t)
  {
  }

  lemma Parts(s: State)
    requires Inv(s)
    ensures s.ring.Valid() && BlocksHonestly(s) && PcsOk(s)
  {
    assert Holds(s, Elements) && Holds(s, Blocking) && Holds(s, Places);
  }

  /** Every step does one of these to every thread. */
  lemma StepThread(s: State, a: Action, s': State, t: Tid)
    requires Inv(s) && Next(s, a, s') && t < |s.threads|
    ensures ThreadStep(s, a, s', t)
  {
    hide Inv, ThreadStep, PcOk, BlocksHonestly, DoAttempt, DoCheck, DoUnlockFair, DoMove, DoCloseLoop, DoResume, DoLockMutex, DoDecide;
    hide DoRecheck, DoAllowOther, DoReturn, DoCall, MayWake;
    Parts(s);
    match a {
      case Attempt(u) => AttemptThread(s, u, t);
      case Check(u, grown) => CheckThread(s, u, grown, t);
      case UnlockFair(u) =>
        var d := s.threads[u].side;
        if s.locks.Of(d).queue != [] { HeadWaits(s, d); }
        UnlockThread(s, u, t);
      case UnlockMutex(u) => FailThread(s, u, s', t);
      case Move(u, wake) => MoveThread(s, u, wake, t);
      case CloseLoop(wake) => LoopThread(s, wake, t);
      case Resume(_) => ResumeThread(s, a, s', t);
      case LockMutex(_) => ResumeThread(s, a, s', t);
      case Call(_, _, _, _) => ReturnThread(s, a, s', t);
      case Close => ReturnThread(s, a, s', t);
      case Return(_) => ReturnThread(s, a, s', t);
      case _ => DecideThread(s, a, s', t);
    }
  }
}
