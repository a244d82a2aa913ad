/** What a call did, by its status: exactly the calls that return 0 move an element, and each moves one. */
module QueueCalls {
  import opened Ring
  import opened LockValue
  import opened Options
  import opened QueueProtocol
  import opened QueueSafety
  import opened QueueSteps
  import opened QueueTheorems
  import opened QueueThreads
  import opened QueueProgress

  /** The call has moved its element. */
  predicate HasMoved(pc: Pc) { pc == Releasing || pc == Returning(Success) }

  predicate MovesBy(a: Action, t: Tid) { a.Move? && a.t == t }

  /** How many of the actions from `i` to `j` are moves of `t`. */
  function MoveCount(actions: seq<Action>, t: Tid, i: nat, j: nat): (n: nat)
    requires i <= j <= |actions|
  {
    if i == j then 0 else MoveCount(actions, t, i, j - 1) + if MovesBy(actions[j - 1], t) then 1 else 0
  }

  /** The step from `s` to `s'` adds `x` for a producer, or hands it out for a consumer, and nothing else. */
  ghost predicate Moves(s: State, s': State, d: Side, x: Element) {
    if d == Producer
    then s'.added == s.added + [x] && s'.delivered == s.delivered
    else s'.delivered == s.delivered + [x] && s'.added == s.added
  }

  /** What a move does to the histories. */
  lemma OwnMove(s: State, a: Action, s': State, t: Tid)
    requires Inv(s) && Next(s, a, s') && MovesBy(a, t)
    ensures t < |s.threads| == |s'.threads| && Moves(s, s', s.threads[t].side, s'.threads[t].element)
    ensures s.threads[t].side == Producer ==> s'.threads[t].element == s.threads[t].element
  {
    hide Enqueued, Dequeued, Inv;
    Parts(s);
  }

  /** What any step is to a call, apart from the histories. */
  lemma CallGoesOn(s: State, a: Action, s': State, t: Tid)
    requires t < |s.threads| && ThreadStep(s, a, s', t) && s.threads[t].pc != Idle && s'.threads[t].pc != Idle
    ensures var th, th' := s.threads[t], s'.threads[t];
      && th'.side == th.side
      && if MovesBy(a, t) then !HasMoved(th.pc) && HasMoved(th'.pc) else HasMoved(th'.pc) == HasMoved(th.pc) && th'.element == th.element
  {
  }

  /** What one step is to the call of `t`. */
  ghost predicate CallStep(s: State, a: Action, s': State, t: Tid)
    requires t < |s.threads| && t < |s'.threads|
  {
    var th, th' := s.threads[t], s'.threads[t];
    && th'.side == th.side
    && if MovesBy(a, t)
       then !HasMoved(th.pc) && HasMoved(th'.pc) && Moves(s, s', th.side, th'.element) && (th.side == Producer ==> th'.element == th.element)
       else HasMoved(th'.pc) == HasMoved(th.pc) && th'.element == th.element
  }

  lemma StepIsCallStep(s: State, a: Action, s': State, t: Tid)
    requires Inv(s) && Next(s, a, s') && t < |s.threads| && t < |s'.threads|
    requires s.threads[t].pc != Idle && s'.threads[t].pc != Idle
    ensures CallStep(s, a, s', t)
  {
    hide Inv, Next, Moves, HasMoved, ThreadStep;
    StepThread(s, a, s', t);
    CallGoesOn(s, a, s', t);
    if MovesBy(a, t) { OwnMove(s, a, s', t); }
  }

  /** The moves of the call of `t` from `i` to `j`: as many as it has moved, each of the element that it brought or has now. */
  ghost predicate Accounted(states: seq<State>, actions: seq<Action>, t: Tid, i: nat, j: nat)
    requires |states| == |actions| + 1 && i <= j < |states| && InCall(states, t, i, j)
  {
    var first, last := states[i].threads[t], states[j].threads[t];
    && MoveCount(actions, t, i, j) == (if HasMoved(last.pc) then 1 else 0)
    && last.side == first.side && (last.side == Producer ==> last.element == first.element)
    && forall k :: i <= k < j && MovesBy(actions[k], t) ==> Moves(states[k], states[k + 1], last.side, last.element)
  }

  lemma AccountedOn(states: seq<State>, actions: seq<Action>, t: Tid, i: nat, j: nat)
    requires |states| == |actions| + 1 && i < j < |states| && InCall(states, t, i, j) && InCall(states, t, i, j - 1)
    requires Accounted(states, actions, t, i, j - 1) && CallStep(states[j - 1], actions[j - 1], states[j], t)
    ensures Accounted(states, actions, t, i, j)
  {
    hide Moves, HasMoved;
    if MovesBy(actions[j - 1], t) { NoMoves(actions, t, i, j - 1); }
  }

  lemma {:induction false} CallAccounted(states: seq<State>, actions: seq<Action>, t: Tid, i: nat, j: nat)
    requires Run(states, actions) && i <= j < |states| && InCall(states, t, i, j) && states[i].threads[t].pc == Entered
    ensures Accounted(states, actions, t, i, j)
  {
    hide Inv, Next, Accounted, CallStep, Init;
    if i < j {
      CallAccounted(states, actions, t, i, j - 1);
      RunInv(states, actions, j - 1);
      StepIsCallStep(states[j - 1], actions[j - 1], states[j], t);
      AccountedOn(states, actions, t, i, j);
    } else {
      NothingAccounted(states, actions, t, i, j);
    }
  }

  lemma NothingAccounted(states: seq<State>, actions: seq<Action>, t: Tid, i: nat, j: nat)
    requires |states| == |actions| + 1 && i == j < |states| && InCall(states, t, i, j) && states[i].threads[t].pc == Entered
    ensures Accounted(states, actions, t, i, j)
  {
  }

  lemma {:induction false} NoMoves(actions: seq<Action>, t: Tid, i: nat, j: nat)
    requires i <= j <= |actions| && MoveCount(actions, t, i, j) == 0
    ensures forall k :: i <= k < j ==> !MovesBy(actions[k], t)
  {
    if i < j { NoMoves(actions, t, i, j - 1); }
  }

  /**
   A call that began in state `i` and returns in state `j` moved an element exactly when its status is 0, and then one: a
   producer adds the element it was called with, and a consumer is handed the element it returns. A call with any other
   status moves nothing.
   */
  lemma StatusTellsMoves(states: seq<State>, actions: seq<Action>, t: Tid, i: nat, j: nat)
    requires Run(states, actions) && i <= j < |states| && InCall(states, t, i, j)
    requires states[i].threads[t].pc == Entered && states[j].threads[t].pc.Returning?
    ensures MoveCount(actions, t, i, j) == if states[j].threads[t].pc.status == Success then 1 else 0
    ensures var x := if states[i].threads[t].side == Producer then states[i].threads[t].element else states[j].threads[t].element;
      forall k :: i <= k < j && MovesBy(actions[k], t) ==> Moves(states[k], states[k + 1], states[i].threads[t].side, x)
  {
    CallAccounted(states, actions, t, i, j);
  }

  /** Elements come and go by moves alone. */
  lemma OnlyMovesMove(states: seq<State>, actions: seq<Action>, k: nat)
    requires Run(states, actions) && k < |actions|
    ensures states[k + 1].added != states[k].added || states[k + 1].delivered != states[k].delivered <==> actions[k].Move?
  {
    RunInv(states, actions, k);
    if actions[k].Move? { OwnMove(states[k], actions[k], states[k + 1], actions[k].t); }
  }
}
