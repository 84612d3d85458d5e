/**
 The cancellation token: a sticky flag and a broadcast. A subscription remembers how many
 broadcasts there had been when it was made; awaiting it sleeps only while there has been no other.
 */
module Cancellation {
  type Pid = nat

  /** Where a call stands: one of `cancel`, or one of `cancelled` in its loop. */
  datatype Call =
    | Swap
    | Notify
    | Cancelled(setFlag: bool)
    | Subscribe
    | Check(seen: nat)
    | Await(seen: nat)
    | Asleep(seen: nat)
    | Returned
  {
    predicate Waiting() {
      Subscribe? || Check? || Await? || Asleep?
    }
  }

  datatype State = State(flag: bool, broadcasts: nat, calls: map<Pid, Call>)

  const INITIAL := State(false, 0, map[])

  datatype Action = Enter(pid: Pid, call: Call) | Step(pid: Pid) | Abandon(pid: Pid)

  predicate Enabled(s: State, a: Action) {
    match a
    case Enter(pid, call) => pid !in s.calls && (call.Swap? || call.Subscribe?)
    case Step(pid) => pid in s.calls && CanStep(s, s.calls[pid])
    case Abandon(pid) => pid in s.calls && s.calls[pid].Waiting()
  }

  /** A sleeper wakes by a broadcast that came after its subscription. */
  predicate CanStep(s: State, call: Call) {
    match call
    case Cancelled(_) => false
    case Returned => false
    case Asleep(seen) => s.broadcasts != seen
    case _ => true
  }

  function Next(s: State, a: Action): State
    requires Enabled(s, a)
  {
    match a
    case Enter(pid, call) => s.(calls := s.calls[pid := call])
    case Abandon(pid) => s.(calls := s.calls - {pid})
    case Step(pid) =>
      var t :=
        match s.calls[pid] case Swap => s.(flag := true) case Notify => s.(broadcasts := s.broadcasts + 1) case _ => s;
      t.(calls := t.calls[pid := Continue(s, s.calls[pid])])
  }

  function Continue(s: State, call: Call): Call {
    match call
    case Swap => if s.flag then Cancelled(false) else Notify
    case Notify => Cancelled(true)
    case Subscribe => Check(s.broadcasts)
    case Check(seen) => if s.flag then Returned else Await(seen)
    case Await(seen) => if s.broadcasts == seen then Asleep(seen) else Subscribe
    case Asleep(_) => Subscribe
    case _ => call
  }

  predicate Valid(s: State, actions: seq<Action>)
    decreases |actions|
  {
    actions == [] || (Enabled(s, actions[0]) && Valid(Next(s, actions[0]), actions[1..]))
  }

  function Run(s: State, actions: seq<Action>): State
    requires Valid(s, actions)
    decreases |actions|
  {
    if actions == [] then s else Run(Next(s, actions[0]), actions[1..])
  }

  /** One call at most is between setting the flag and broadcasting; nobody awaits what came after the flag. */
  ghost predicate Inv(s: State) {
    && s.broadcasts <= 1
    && (!s.flag ==> s.broadcasts == 0)
    && (forall p | p in s.calls && s.calls[p].Notify? :: s.flag && s.broadcasts == 0)
    && (forall p, q | p in s.calls && q in s.calls && s.calls[p].Notify? && s.calls[q].Notify? :: p == q)
    && (forall p | p in s.calls && s.calls[p].Cancelled? && s.calls[p].setFlag :: s.broadcasts == 1)
    && (s.flag && s.broadcasts == 0 ==> exists p :: p in s.calls && s.calls[p].Notify?)
    && (forall p | p in s.calls && s.calls[p].Check? :: s.calls[p].seen <= s.broadcasts)
    && (forall p | p in s.calls && (s.calls[p].Await? || s.calls[p].Asleep?) :: s.calls[p].seen == 0)
  }

  lemma ActionKeeps(s: State, a: Action)
    requires Inv(s) && Enabled(s, a)
    ensures Inv(Next(s, a))
  {
    var t := Next(s, a);
    if t.flag && t.broadcasts == 0 {
      if s.flag {
        var p :| p in s.calls && s.calls[p].Notify?;
        assert p in t.calls && t.calls[p].Notify?;
      } else {
        assert t.calls[a.pid].Notify?;
      }
    }
  }

  lemma {:induction false} RunKeeps(s: State, actions: seq<Action>)
    requires Inv(s) && Valid(s, actions)
    ensures Inv(Run(s, actions))
    decreases |actions|
  {
    if actions == [] {
    } else {
      ActionKeeps(s, actions[0]);
      RunKeeps(Next(s, actions[0]), actions[1..]);
    }
  }

  /** The `cancel` call that set the flag has returned. */
  ghost predicate Settled(s: State) {
    exists p :: p in s.calls && s.calls[p] == Cancelled(true)
  }

  /** Steps a waiter needs once cancellation has settled. */
  function Left(call: Call): nat {
    match call
    case Asleep(_) => 3
    case Await(_) => 3
    case Subscribe => 2
    case Check(_) => 1
    case _ => 0
  }

  /** How often a process steps in a schedule. */
  function Turns(actions: seq<Action>, pid: Pid): nat {
    if actions == [] then 0
    else Turns(actions[1..], pid) + if actions[0] == Step(pid) then 1 else 0
  }

  /**
   No lost wakeup: whatever the interleaving, once the cancelling call has returned nobody is
   stuck, and a waiter that took `n` more steps is at least `n` steps closer to returning.
   */
  lemma NoLostWakeup(past: seq<Action>, future: seq<Action>, pid: Pid)
    requires Valid(INITIAL, past) && Settled(Run(INITIAL, past)) && Valid(Run(INITIAL, past), future)
    requires pid in Run(INITIAL, past).calls && Run(INITIAL, past).calls[pid].Waiting()
    requires Abandon(pid) !in future
    ensures var s, t := Run(INITIAL, past), Run(Run(INITIAL, past), future);
            && pid in t.calls
            && (t.calls[pid].Returned? || Enabled(t, Step(pid)))
            && Turns(future, pid) + Left(t.calls[pid]) <= Left(s.calls[pid]) <= 3
            && (Turns(future, pid) == Left(s.calls[pid]) ==> t.calls[pid].Returned?)
  {
    RunKeeps(INITIAL, past);
    Closer(Run(INITIAL, past), future, pid);
  }

  lemma {:induction false} Closer(s: State, future: seq<Action>, pid: Pid)
    requires Inv(s) && Settled(s) && Valid(s, future)
    requires pid in s.calls && (s.calls[pid].Waiting() || s.calls[pid].Returned?)
    requires Abandon(pid) !in future
    ensures var t := Run(s, future);
            && pid in t.calls && (t.calls[pid].Waiting() || t.calls[pid].Returned?)
            && (t.calls[pid].Returned? || Enabled(t, Step(pid)))
            && Turns(future, pid) + Left(t.calls[pid]) <= Left(s.calls[pid])
    decreases |future|
  {
    if future == [] {
      assert s.broadcasts == 1;
    } else {
      var t := Next(s, future[0]);
      ActionKeeps(s, future[0]);
      var p :| p in s.calls && s.calls[p] == Cancelled(true);
      assert p in t.calls && t.calls[p] == Cancelled(true);
      assert future[0] in future && forall a | a in future[1..] :: a in future;
      Closer(t, future[1..], pid);
    }
  }

  /** The flag is sticky: a call made after it was set returns without ever sleeping. */
  lemma LateSubscriberReturns(past: seq<Action>, pid: Pid)
    requires Valid(INITIAL, past) && Run(INITIAL, past).flag && pid !in Run(INITIAL, past).calls
    ensures var s := Run(INITIAL, past);
            var t := Next(s, Enter(pid, Subscribe));
            && Enabled(t, Step(pid)) && Enabled(Next(t, Step(pid)), Step(pid))
            && Next(Next(t, Step(pid)), Step(pid)).calls[pid].Returned?
  {
  }
}
