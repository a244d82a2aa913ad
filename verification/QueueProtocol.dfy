/**
 The blocking queue (blocking_queue.h) as a step relation over any number of threads.

 One step is one critical section of a fair lock, or one stretch of `blocking_queue_add_internal` and
 `blocking_queue_get_internal` between two such sections.  `mutex` is held across several steps, as in
 the program, so that other threads move on the fair locks meanwhile.  Threads waiting on a condition
 variable run again only when signalled, and allocation succeeds.
 */
module QueueProtocol {
  import opened Ring
  import opened LockValue
  import opened Options

  datatype Side = Producer | Consumer

  function Other(d: Side): (r: Side) { if d == Producer then Consumer else Producer }

  /** 0, BQ_FULL, BQ_EMPTY and BQ_CLOSED. */
  datatype Status = Success | Full | Empty | Closed

  function LimitStatus(d: Side): (r: Status) { if d == Producer then Full else Empty }

  /** Where a thread is in a call. */
  datatype Pc =
    | Idle
    | Entered             // counted as active, about to ask for its fair lock
    | Queued              // asleep in the fair lock
    | Granted             // woken there by an unlock
    | Abandoned           // woken there because weak locks were blocked
    | Holding             // has the fair lock, about to lock the mutex
    | Checking            // has the mutex
    | Limited             // found the queue full (empty), weak locks now blocked
    | Waiting             // asleep on the shared condition variable
    | Signalled           // signalled there, about to lock the mutex again
    | Woken               // has the mutex again
    | Moving              // about to let weak requests of the other side in
    | Ready               // about to signal and move an element
    | Releasing           // moved it and left the mutex, about to unlock the fair lock
    | Failing(status: Status)     // about to unlock the fair lock, still has the mutex
    | Failed(status: Status)      // about to leave the mutex
    | Returning(status: Status)   // about to leave the count of active callers

  /** `async` calls are add and poll; the others, put and take, may block. A taken element is stored in `element`. */
  datatype Thread = Thread(side: Side, async: bool, element: Element, ticket: nat, pc: Pc)

  datatype Pair<T> = Pair(producer: T, consumer: T) {
    function Of(d: Side): (t: T) { if d == Producer then producer else consumer }
    function With(d: Side, t: T): (p: Pair<T>) { if d == Producer then this.(producer := t) else this.(consumer := t) }
  }

  /** `blocking_queue_close`: not called yet, in its loop, asleep there on `destroy_cond`, or through. */
  datatype Closer = Open | Looping | Asleep | Finished

  datatype State = State(
    threads: seq<Thread>,
    ring: Ring,
    bounded: bool,
    closed: bool,
    mutex: Option<Tid>,
    locks: Pair<Lock>,         // add_lock and get_lock
    flags: Pair<bool>,         // add_ and get_lock_are_weak_locks_blocked
    active: int,
    closer: Closer,
    added: seq<Element>,       // history: elements put in, in order
    delivered: seq<Element>)   // history: elements handed out, in order

  datatype Action =
    | Call(t: Tid, side: Side, async: bool, element: Element)
    | Attempt(t: Tid)
    | Resume(t: Tid)
    | LockMutex(t: Tid)
    | Check(t: Tid, grown: Ring)
    | Decide(t: Tid)
    | Recheck(t: Tid)
    | AllowOther(t: Tid)
    | Move(t: Tid, wake: Option<Tid>)
    | UnlockFair(t: Tid)
    | UnlockMutex(t: Tid)
    | Return(t: Tid)
    | Close
    | CloseLoop(wake: Option<Tid>)

  /** The queue is full for a producer of a bounded queue, or empty for a consumer. */
  predicate AtLimit(s: State, d: Side) {
    if d == Producer then s.bounded && s.ring.IsFull() else s.ring.size == 0
  }

  predicate CanMove(s: State, d: Side) {
    if d == Producer then !s.ring.IsFull() else 0 < s.ring.size
  }

  function SetPc(s: State, t: Tid, pc: Pc): (s': State)
    requires t < |s.threads|
  {
    s.(threads := s.threads[t := s.threads[t].(pc := pc)])
  }

  function SetLock(s: State, d: Side, l: Lock): (s': State) {
    s.(locks := s.locks.With(d, l))
  }

  ghost predicate Init(s: State) {
    && (forall t :: 0 <= t < |s.threads| ==> s.threads[t].pc == Idle)
    && s.ring.Valid() && s.ring.size == 0
    && !s.closed
    && s.mutex == None
    && s.locks == Pair(INITIAL, INITIAL)
    && s.flags == Pair(false, false)
    && s.active == 0
    && s.closer == Open
    && s.added == [] && s.delivered == []
  }

  // ---------- what each step does ----------

  /** `pthread_cond_signal(&bq->cond)`: one waiting thread, if there is any. */
  ghost predicate MayWake(s: State, wake: Option<Tid>) {
    match wake
    case None => forall t :: 0 <= t < |s.threads| ==> s.threads[t].pc != Waiting
    case Some(w) => w < |s.threads| && s.threads[w].pc == Waiting
  }

  function Wake(s: State, wake: Option<Tid>): (s': State)
    requires wake.Some? ==> wake.value < |s.threads|
  {
    if wake.Some? then SetPc(s, wake.value, Signalled) else s
  }

  function DoCall(s: State, t: Tid, side: Side, async: bool, element: Element): (s': State)
    requires t < |s.threads|
  {
    s.(threads := s.threads[t := Thread(side, async, element, s.threads[t].ticket, Entered)], active := s.active + 1)
  }

  function DoAttempt(s: State, t: Tid): (s': State)
    requires t < |s.threads|
  {
    var th := s.threads[t];
    var l := s.locks.Of(th.side);
    if th.async && l.blockWeak then
      SetPc(s, t, Returning(LimitStatus(th.side)))
    else
      var pc := if IsFree(l) then Holding else Queued;
      SetLock(s, th.side, Enter(l, t, th.async)).(threads := s.threads[t := th.(ticket := l.arrivals, pc := pc)])
  }

  function DoResume(s: State, t: Tid): (s': State)
    requires t < |s.threads|
  {
    var th := s.threads[t];
    var l := s.locks.Of(th.side);
    if th.pc == Abandoned then
      SetPc(s, t, Returning(LimitStatus(th.side)))
    else
      SetLock(SetPc(s, t, Holding), th.side, if l.handoff.Some? then Take(l) else l)
  }

  function DoLockMutex(s: State, t: Tid): (s': State)
    requires t < |s.threads|
  {
    SetPc(s, t, if s.threads[t].pc == Holding then Checking else Woken).(mutex := Some(t))
  }

  /** The threads whose weak requests are in the queue `q` of side `d`. */
  predicate Drops(s: State, d: Side, t: Tid)
    requires t < |s.threads|
  {
    Request(s.threads[t].ticket, t, true) in s.locks.Of(d).queue
  }

  function AbandonAll(s: State, d: Side): (r: seq<Thread>)
    ensures |r| == |s.threads|
  {
    seq(|s.threads|, t requires 0 <= t < |s.threads| =>
      if Drops(s, d, t) then s.threads[t].(pc := Abandoned) else s.threads[t])
  }

  /** From the test of `closed` to the first test of the capacity, with `grow_queue` or the blocking of weak locks. */
  function DoCheck(s: State, t: Tid, grown: Ring): (s': State)
    requires t < |s.threads|
  {
    var d := s.threads[t].side;
    if s.closed then
      SetPc(s, t, Failing(Closed))
    else if d == Producer && s.ring.IsFull() && !s.bounded then
      SetPc(s, t, Moving).(ring := grown)
    else if AtLimit(s, d) then
      if s.flags.Of(d) then SetPc(s, t, Limited)
      else
        SetPc(SetLock(s.(threads := AbandonAll(s, d)), d, Block(s.locks.Of(d))), t, Limited)
          .(flags := s.flags.With(d, true))
    else
      SetPc(s, t, Moving)
  }

  function DoDecide(s: State, t: Tid): (s': State)
    requires t < |s.threads|
  {
    if s.threads[t].async then SetPc(s, t, Failing(LimitStatus(s.threads[t].side)))
    else SetPc(s, t, Waiting).(mutex := None)
  }

  function DoRecheck(s: State, t: Tid): (s': State)
    requires t < |s.threads|
  {
    SetPc(s, t, if s.closed then Failing(Closed) else Moving)
  }

  function DoAllowOther(s: State, t: Tid): (s': State)
    requires t < |s.threads|
  {
    var o := Other(s.threads[t].side);
    if s.flags.Of(o)
    then SetLock(SetPc(s, t, Ready), o, Allow(s.locks.Of(o))).(flags := s.flags.With(o, false))
    else SetPc(s, t, Ready)
  }

  function DoMove(s: State, t: Tid, wake: Option<Tid>): (s': State)
    requires t < |s.threads| && s.ring.Valid()
    requires wake.Some? ==> wake.value < |s.threads|
  {
    var th := s.threads[t];
    var x := if th.side == Producer then th.element else s.ring.cells[s.ring.front];
    var r := Wake(s, wake);
    var r' := r.(threads := r.threads[t := th.(pc := Releasing, element := x)], mutex := None);
    if th.side == Producer
    then r'.(ring := Enqueued(s.ring, x), added := s.added + [x])
    else r'.(ring := Dequeued(s.ring), delivered := s.delivered + [x])
  }

  function DoUnlockFair(s: State, t: Tid): (s': State)
    requires t < |s.threads|
  {
    var th := s.threads[t];
    var l := s.locks.Of(th.side);
    var next := if th.pc == Releasing then Returning(Success)
                else if th.pc.Failing? then Failed(th.pc.status) else th.pc;
    var r := SetLock(SetPc(s, t, next), th.side, Release(l));
    if l.queue != [] && l.queue[0].tid < |s.threads| then SetPc(r, l.queue[0].tid, Granted) else r
  }

  function DoReturn(s: State, t: Tid): (s': State)
    requires t < |s.threads|
  {
    SetPc(s, t, Idle).(active := s.active - 1, closer := if s.closer == Asleep then Looping else s.closer)
  }

  function DoCloseLoop(s: State, wake: Option<Tid>): (s': State)
    requires wake.Some? ==> wake.value < |s.threads|
  {
    if s.active == 0 then s.(closer := Finished) else Wake(s, wake).(closer := Asleep)
  }

  /** `a` is possible in `s`. */
  ghost predicate Enabled(s: State, a: Action) {
    match a
    case Close => s.mutex == None && s.closer == Open
    case CloseLoop(wake) => s.closer == Looping && MayWake(s, wake)
    case Call(t, side, async, element) => t < |s.threads| && s.threads[t].pc == Idle
    case Attempt(t) => t < |s.threads| && s.threads[t].pc == Entered
    case Resume(t) => t < |s.threads| && (s.threads[t].pc == Granted || s.threads[t].pc == Abandoned)
    case LockMutex(t) => t < |s.threads| && s.mutex == None && (s.threads[t].pc == Holding || s.threads[t].pc == Signalled)
    case Check(t, grown) =>
      && t < |s.threads| && s.threads[t].pc == Checking
      && (s.ring.Valid() && s.ring.IsFull() ==> GrownTo(s.ring, grown))
    case Decide(t) => t < |s.threads| && s.threads[t].pc == Limited
    case Recheck(t) => t < |s.threads| && s.threads[t].pc == Woken
    case AllowOther(t) => t < |s.threads| && s.threads[t].pc == Moving
    case Move(t, wake) => t < |s.threads| && s.threads[t].pc == Ready && MayWake(s, wake)
    case UnlockFair(t) => t < |s.threads| && (s.threads[t].pc == Releasing || s.threads[t].pc.Failing?)
    case UnlockMutex(t) => t < |s.threads| && s.threads[t].pc.Failed?
    case Return(t) => t < |s.threads| && s.threads[t].pc.Returning?
  }

  /** What `a` makes of `s`.  `Move` takes or adds an element without looking whether there is one, or room for it. */
  ghost predicate Next(s: State, a: Action, s': State) {
    && Enabled(s, a)
    && match a
       case Close => s' == s.(closed := true, closer := Looping)
       case CloseLoop(wake) => s' == DoCloseLoop(s, wake)
       case Call(t, side, async, element) => s' == DoCall(s, t, side, async, element)
       case Attempt(t) => s' == DoAttempt(s, t)
       case Resume(t) => s' == DoResume(s, t)
       case LockMutex(t) => s' == DoLockMutex(s, t)
       case Check(t, grown) => s' == DoCheck(s, t, grown)
       case Decide(t) => s' == DoDecide(s, t)
       case Recheck(t) => s' == DoRecheck(s, t)
       case AllowOther(t) => s' == DoAllowOther(s, t)
       case Move(t, wake) => s.ring.Valid() ==> s' == DoMove(s, t, wake)
       case UnlockFair(t) => s' == DoUnlockFair(s, t)
       case UnlockMutex(t) => s' == SetPc(s, t, Returning(s.threads[t].pc.status)).(mutex := None)
       case Return(t) => s' == DoReturn(s, t)
  }
}
