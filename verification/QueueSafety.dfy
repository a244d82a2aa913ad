/**
 The inductive invariant of the blocking queue and what follows from it over every run.
 */
module QueueSafety {
  import opened Ring
  import opened LockValue
  import opened Options
  import opened QueueProtocol

  predicate HoldsLock(pc: Pc) {
    pc.Holding? || pc.Checking? || pc.Limited? || pc.Waiting? || pc.Signalled? || pc.Woken?
    || pc.Moving? || pc.Ready? || pc.Releasing? || pc.Failing?
  }

  predicate HoldsMutex(pc: Pc) {
    pc.Checking? || pc.Limited? || pc.Woken? || pc.Moving? || pc.Ready? || pc.Failing? || pc.Failed?
  }

  /** What a thread is to the fair lock of side `d`. */
  datatype Role = Outside | InQueue(ticket: nat, weak: bool) | Handed | Owner

  function RoleOf(th: Thread, d: Side): (r: Role) {
    if th.side != d then Outside
    else if HoldsLock(th.pc) then Owner
    else if th.pc == Granted then Handed
    else if th.pc == Queued then InQueue(th.ticket, th.async)
    else Outside
  }

  /** Who has the fair lock of side `d`. */
  ghost predicate OwnerIs(threads: seq<Thread>, owner: Option<Tid>, d: Side) {
    match owner
    case None => forall t :: 0 <= t < |threads| ==> RoleOf(threads[t], d) != Owner
    case Some(o) => o < |threads| && forall t :: 0 <= t < |threads| ==> (RoleOf(threads[t], d) == Owner <==> t == o)
  }

  /** Who is being handed it. */
  ghost predicate HandoffIs(threads: seq<Thread>, handoff: Option<Request>, d: Side) {
    match handoff
    case None => forall t :: 0 <= t < |threads| ==> RoleOf(threads[t], d) != Handed
    case Some(r) => r.tid < |threads| && forall t :: 0 <= t < |threads| ==> (RoleOf(threads[t], d) == Handed <==> t == r.tid)
  }

  /** The threads asleep in it are those with an entry in its queue. */
  ghost predicate Sleepers(threads: seq<Thread>, l: Lock, d: Side) {
    match l
    case Lock(queue, _, _, _, _, _, _, _, _) =>
      && (forall i :: 0 <= i < |queue| ==> queue[i].tid < |threads|)
      && (forall i, j :: 0 <= i < j < |queue| ==> queue[i].tid != queue[j].tid)
      && (forall i :: 0 <= i < |queue| ==> RoleOf(threads[queue[i].tid], d) == InQueue(queue[i].ticket, queue[i].weak))
      && (forall t :: 0 <= t < |threads| && RoleOf(threads[t], d).InQueue? ==>
                        Request(threads[t].ticket, t, threads[t].async) in queue)
  }

  ghost predicate LockSide(threads: seq<Thread>, l: Lock, d: Side) {
    match l
    case Lock(_, _, _, _, owner, handoff, _, _, _) =>
      Counted(l) && OwnerIs(threads, owner, d) && HandoffIs(threads, handoff, d) && Sleepers(threads, l, d)
  }

  ghost predicate MutexHeld(threads: seq<Thread>, mutex: Option<Tid>) {
    match mutex
    case None => forall t :: 0 <= t < |threads| ==> !HoldsMutex(threads[t].pc)
    case Some(h) => h < |threads| && forall t :: 0 <= t < |threads| ==> (HoldsMutex(threads[t].pc) <==> t == h)
  }

  /** Elements: what was put in is what was handed out followed by what is in the buffer. */
  ghost predicate Conserved(s: State) {
    && s.ring.Valid()
    && s.added == s.delivered + s.ring.Contents()
  }

  /** Weak requests are turned away on a side only while that side is at its limit. */
  ghost predicate BlocksHonestly(s: State) {
    && s.flags == Pair(s.locks.producer.blockWeak, s.locks.consumer.blockWeak)
    && (s.flags.producer ==> AtLimit(s, Producer))
    && (s.flags.consumer ==> AtLimit(s, Consumer))
  }

  /**
   What a thread may rely on where it is.  A thread waiting on the shared condition variable waits at
   its limit; one signalled there, or past its test, can move an element unless the queue was closed.
   */
  ghost predicate PcOk(s: State, th: Thread) {
    match th.pc
    case Limited => !s.closed && AtLimit(s, th.side)
    case Waiting => AtLimit(s, th.side) && !th.async
    case Signalled => s.closed || CanMove(s, th.side)
    case Woken => s.closed || CanMove(s, th.side)
    case Moving => !s.closed && CanMove(s, th.side)
    case Ready => !s.closed && CanMove(s, th.side) && !s.flags.Of(Other(th.side))
    case Abandoned => th.async
    case Failing(st) => st != Success && (st == Closed ==> s.closed) && (st == Full || st == Empty ==> th.async && st == LimitStatus(th.side))
    case Failed(st) => st != Success && (st == Closed ==> s.closed) && (st == Full || st == Empty ==> th.async && st == LimitStatus(th.side))
    case Returning(st) => (st == Closed ==> s.closed) && (st == Full || st == Empty ==> th.async && st == LimitStatus(th.side))
    case _ => true
  }

  ghost predicate PcsOk(s: State) {
    forall t :: 0 <= t < |s.threads| ==> PcOk(s, s.threads[t])
  }

  function ActiveCount(threads: seq<Thread>): (n: nat) {
    if threads == [] then 0
    else ActiveCount(threads[..|threads| - 1]) + if threads[|threads| - 1].pc == Idle then 0 else 1
  }

  ghost predicate NobodyWaits(s: State) {
    forall t :: 0 <= t < |s.threads| ==> s.threads[t].pc != Waiting
  }

  /** The closing loop sleeps only while a caller is active, and leaves nobody waiting behind. */
  ghost predicate Closing(s: State) {
    match s.closer
    case Open => s.active == ActiveCount(s.threads) && !s.closed
    case Looping => s.active == ActiveCount(s.threads) && s.closed
    case Asleep => s.active == ActiveCount(s.threads) && s.closed && 0 < s.active && NobodyWaits(s)
    case Finished => s.active == ActiveCount(s.threads) && s.closed && NobodyWaits(s)
  }

  /** The parts of the invariant. */
  datatype Part = AddLock | GetLock | Mutex | Elements | Blocking | Places | Close

  ghost predicate Holds(s: State, p: Part) {
    match p
    case AddLock => LockSide(s.threads, s.locks.producer, Producer)
    case GetLock => LockSide(s.threads, s.locks.consumer, Consumer)
    case Mutex => MutexHeld(s.threads, s.mutex)
    case Elements => Conserved(s)
    case Blocking => BlocksHonestly(s)
    case Places => PcsOk(s)
    case Close => Closing(s)
  }

  ghost predicate Inv(s: State) {
    forall p: Part :: Holds(s, p)
  }

  function LockPart(d: Side): (p: Part) { if d == Producer then AddLock else GetLock }

  lemma {:induction false} IdleCount(threads: seq<Thread>)
    requires forall t :: 0 <= t < |threads| ==> threads[t].pc == Idle
    ensures ActiveCount(threads) == 0
  {
    if threads != [] {
      IdleCount(threads[..|threads| - 1]);
    }
  }

  lemma InitInv(s: State)
    requires Init(s)
    ensures Inv(s)
  {
    IdleCount(s.threads);
    forall p: Part
      ensures Holds(s, p)
    {
      match p {
        case AddLock =>
        case GetLock =>
        case Mutex =>
        case Elements => assert s.ring.Contents() == [];
        case Blocking =>
        case Places =>
        case Close =>
      }
    }
  }

  /** Replacing one thread changes the count by that thread alone. */
  lemma {:induction false} CountUpdate(threads: seq<Thread>, t: nat, th: Thread)
    requires t < |threads|
    ensures ActiveCount(threads[t := th]) ==
            ActiveCount(threads) - (if threads[t].pc == Idle then 0 else 1) + if th.pc == Idle then 0 else 1
  {
    var n := |threads| - 1;
    if t < n {
      CountUpdate(threads[..n], t, th);
      assert threads[t := th][..n] == threads[..n][t := th];
    } else {
      assert threads[t := th][..n] == threads[..n];
    }
  }

  // ---------- what one changed thread leaves alone ----------

  lemma LockSideFrame(threads: seq<Thread>, t: Tid, th: Thread, l: Lock, d: Side)
    requires LockSide(threads, l, d) && t < |threads|
    requires RoleOf(th, d) == RoleOf(threads[t], d)
    ensures LockSide(threads[t := th], l, d)
  {
  }

  lemma PcsFrame(s: State, s': State, t: Tid)
    requires PcsOk(s) && t < |s.threads| && |s'.threads| == |s.threads|
    requires s'.threads == s.threads[t := s'.threads[t]] && PcOk(s', s'.threads[t])
    requires s'.ring == s.ring && s'.bounded == s.bounded && s'.closed == s.closed && s'.flags == s.flags
    ensures PcsOk(s')
  {
  }

  lemma ClosingFrame(s: State, s': State, t: Tid)
    requires Closing(s) && t < |s.threads| && |s'.threads| == |s.threads|
    requires s'.threads == s.threads[t := s'.threads[t]]
    requires s.threads[t].pc != Idle && s'.threads[t].pc != Idle
    requires s'.threads[t].pc == Waiting ==> s.closer == Open
    requires s'.active == s.active && s'.closed == s.closed && s'.closer == s.closer
    ensures Closing(s')
  {
    CountUpdate(s.threads, t, s'.threads[t]);
  }

  lemma MutexFrame(threads: seq<Thread>, t: Tid, th: Thread, mutex: Option<Tid>)
    requires MutexHeld(threads, mutex) && t < |threads|
    requires HoldsMutex(th.pc) == HoldsMutex(threads[t].pc)
    ensures MutexHeld(threads[t := th], mutex)
  {
  }

  // ---------- what many changed threads leave alone ----------

  lemma LockSideSameRoles(threads: seq<Thread>, threads': seq<Thread>, l: Lock, d: Side)
    requires LockSide(threads, l, d) && |threads'| == |threads|
    requires forall t :: 0 <= t < |threads| ==> RoleOf(threads'[t], d) == RoleOf(threads[t], d)
    ensures LockSide(threads', l, d)
  {
  }

  lemma {:induction false} SameCount(threads: seq<Thread>, threads': seq<Thread>)
    requires |threads| == |threads'|
    requires forall t :: 0 <= t < |threads| ==> (threads'[t].pc == Idle <==> threads[t].pc == Idle)
    ensures ActiveCount(threads') == ActiveCount(threads)
  {
    if threads != [] {
      SameCount(threads[..|threads| - 1], threads'[..|threads| - 1]);
    }
  }
}
