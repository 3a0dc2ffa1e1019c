/** The local master flag of a coordinator, its lease timers and the notifications of changes. Each critical section
    is one step; timers fire and callbacks run between any of them. */
module MasterNotification {
  import opened Wrappers

  // armed is the lease of the running timer; fired are leases whose timer has gone off but whose
  // expiry has not run yet; waiting are notifications that have not looked at the flag yet; calling
  // is the one that holds the callback mutex; delivered is the last value a callback was given.
  datatype State = State(isMaster: bool, known: bool, lease: nat, armed: Option<nat>, fired: set<nat>,
                         callback: bool, waiting: multiset<bool>, calling: Option<bool>, delivered: Option<bool>)

  datatype Step =
    | SetMaster(next: bool)   // after an election
    | Fire                    // the timer goes off
    | Expire(lease: nat)      // its function runs
    | Check(value: bool)      // a notification takes the mutex and compares the flag
    | Deliver                 // its callback runs
    | Register                // a callback is set

  const INITIAL := State(false, false, 0, None, {}, false, multiset{}, None, None)

  predicate Enabled(s: State, step: Step) {
    match step
    case SetMaster(_) => true
    case Fire => s.armed.Some?
    case Expire(lease) => lease in s.fired
    case Check(value) => value in s.waiting && s.calling.None?
    case Deliver => s.calling.Some?
    case Register => true
  }

  function Notify(waiting: multiset<bool>, changed: bool, value: bool): multiset<bool> {
    if changed then waiting + multiset{value} else waiting
  }

  function Apply(s: State, step: Step): State
    requires Enabled(s, step)
  {
    match step
    case SetMaster(next) =>
      s.(isMaster := next, known := true, lease := s.lease + 1, armed := if next then Some(s.lease + 1) else None,
         waiting := Notify(s.waiting, !s.known || s.isMaster != next, next))
    case Fire => s.(armed := None, fired := s.fired + {s.armed.value})
    case Expire(lease) =>
      if s.lease != lease || !s.isMaster then s.(fired := s.fired - {lease})
      else s.(fired := s.fired - {lease}, isMaster := false, known := true, armed := None, waiting := s.waiting + multiset{false})
    case Check(value) =>
      var rest := s.(waiting := s.waiting - multiset{value});
      if s.isMaster != value || !s.callback then rest else rest.(calling := Some(value))
    case Deliver => s.(calling := None, delivered := s.calling)
    case Register => s.(callback := true)
  }

  ghost predicate Possible(s: State, steps: seq<Step>)
    decreases |steps|
  {
    steps == [] || (Enabled(s, steps[0]) && Possible(Apply(s, steps[0]), steps[1..]))
  }

  ghost function Run(s: State, steps: seq<Step>): State
    requires Possible(s, steps)
    decreases |steps|
  {
    if steps == [] then s else Run(Apply(s, steps[0]), steps[1..])
  }

  // -- Leases ----------------------------------------------------------------------------

  // A master's own lease is still to expire, and no timer runs for a lease that has not been given.
  ghost predicate Leased(s: State) {
    && (s.isMaster ==> s.armed == Some(s.lease) || s.lease in s.fired)
    && (s.armed.Some? ==> s.armed.value <= s.lease)
    && (forall lease :: lease in s.fired ==> lease <= s.lease)
  }

  lemma LeasedStep(s: State, step: Step)
    requires Leased(s) && Enabled(s, step)
    ensures Leased(Apply(s, step))
    ensures s.isMaster && !Apply(s, step).isMaster ==> step == SetMaster(false) || step == Expire(s.lease)
  {
  }

  // Once elected, a node stays master until it is told otherwise or its own lease expires: no timer
  // of an earlier lease takes that away.
  lemma {:induction false} OldTimersHarmless(s: State, steps: seq<Step>)
    requires Leased(s) && s.isMaster && Possible(s, steps)
    requires forall step :: step in steps ==> !step.SetMaster? && step != Expire(s.lease)
    ensures Run(s, steps).isMaster && Run(s, steps).lease == s.lease
    decreases |steps|
  {
    if steps != [] {
      LeasedStep(s, steps[0]);
      assert steps[0] in steps && forall step :: step in steps[1..] ==> step in steps;
      OldTimersHarmless(Apply(s, steps[0]), steps[1..]);
    }
  }

  // Whoever is not master does not become it without an election.
  lemma {:induction false} StaysDown(s: State, steps: seq<Step>)
    requires !s.isMaster && Possible(s, steps)
    requires forall step :: step in steps ==> !step.SetMaster?
    ensures !Run(s, steps).isMaster
    decreases |steps|
  {
    if steps != [] {
      assert steps[0] in steps && forall step :: step in steps[1..] ==> step in steps;
      StaysDown(Apply(s, steps[0]), steps[1..]);
    }
  }

  // After the last election a node is master exactly if that election made it one and the lease it
  // was then given has not expired: the expiry of its own lease does end its mastership.
  lemma {:induction false} MasterUntilExpiry(s: State, next: bool, steps: seq<Step>)
    requires Leased(s) && Possible(Apply(s, SetMaster(next)), steps)
    requires forall step :: step in steps ==> !step.SetMaster?
    ensures Run(Apply(s, SetMaster(next)), steps).isMaster <==> next && Expire(s.lease + 1) !in steps
  {
    var first := Apply(s, SetMaster(next));
    LeasedStep(s, SetMaster(next));
    if !next {
      StaysDown(first, steps);
    } else if Expire(s.lease + 1) in steps {
      ExpiryEnds(first, steps);
    } else {
      OldTimersHarmless(first, steps);
    }
  }

  lemma {:induction false} ExpiryEnds(s: State, steps: seq<Step>)
    requires s.isMaster && Possible(s, steps) && Expire(s.lease) in steps
    requires forall step :: step in steps ==> !step.SetMaster?
    ensures !Run(s, steps).isMaster
    decreases |steps|
  {
    assert steps[0] in steps && forall step :: step in steps[1..] ==> step in steps;
    if steps[0] == Expire(s.lease) {
      StaysDown(Apply(s, steps[0]), steps[1..]);
    } else {
      assert Expire(s.lease) in steps[1..];
      ExpiryEnds(Apply(s, steps[0]), steps[1..]);
    }
  }

  // -- Notifications ---------------------------------------------------------------------

  // The current value is on its way to the callback, or was the last one to get there.
  ghost predicate Coming(s: State) {
    || s.isMaster in s.waiting
    || s.calling == Some(s.isMaster)
    || (s.calling == None && s.delivered == Some(s.isMaster))
  }

  ghost predicate Informed(s: State) { s.known ==> Coming(s) }

  // A step after which the callback is to be told something new.
  predicate Changes(s: State, step: Step)
    requires Enabled(s, step)
  {
    Apply(s, step).isMaster != s.isMaster || Apply(s, step).known != s.known
  }

  // Some step of the run is one.
  ghost predicate ChangesIn(s: State, steps: seq<Step>)
    requires Possible(s, steps)
    decreases |steps|
  {
    steps != [] && (Changes(s, steps[0]) || ChangesIn(Apply(s, steps[0]), steps[1..]))
  }

  // Nothing is on its way to the callback.
  predicate Quiet(s: State) { s.waiting == multiset{} && s.calling == None }

  lemma ComingStep(s: State, step: Step)
    requires s.callback && Enabled(s, step) && (Coming(s) || Changes(s, step))
    ensures Coming(Apply(s, step)) && Apply(s, step).callback
  {
  }

  lemma {:induction false} ComingRun(s: State, steps: seq<Step>)
    requires Coming(s) && s.callback && Possible(s, steps)
    ensures Coming(Run(s, steps))
    decreases |steps|
  {
    if steps != [] {
      ComingStep(s, steps[0]);
      ComingRun(Apply(s, steps[0]), steps[1..]);
    }
  }

  lemma InformedStep(s: State, step: Step)
    requires Informed(s) && s.callback && Enabled(s, step)
    ensures Informed(Apply(s, step)) && Apply(s, step).callback
  {
    if s.known || Changes(s, step) { ComingStep(s, step); }
  }

  // With a callback in place from the start, whenever no notification is pending the last value
  // delivered is the current one.
  lemma {:induction false} LastDelivered(s: State, steps: seq<Step>)
    requires Informed(s) && s.callback && Possible(s, steps)
    ensures var end := Run(s, steps);
            Informed(end) && (end.known && Quiet(end) ==> end.delivered == Some(end.isMaster))
    decreases |steps|
  {
    if steps != [] {
      InformedStep(s, steps[0]);
      LastDelivered(Apply(s, steps[0]), steps[1..]);
    }
  }

  // From any moment at which a callback is set that nothing was delivered to: once nothing is
  // pending it has the current value exactly if a notification of the value at that moment was still
  // waiting or the flag has changed since. Otherwise it is told nothing at all.
  lemma {:induction false} Told(s: State, steps: seq<Step>)
    requires s.callback && s.calling == None && s.delivered == None && Possible(s, steps) && Quiet(Run(s, steps))
    ensures var end := Run(s, steps);
            && (end.delivered == Some(end.isMaster) <==> s.isMaster in s.waiting || ChangesIn(s, steps))
            && (end.delivered == None <==> !(s.isMaster in s.waiting || ChangesIn(s, steps)))
    decreases |steps|
  {
    if s.isMaster in s.waiting {
      ComingRun(s, steps);
    } else if steps != [] {
      if Changes(s, steps[0]) {
        ComingStep(s, steps[0]);
        ComingRun(Apply(s, steps[0]), steps[1..]);
      } else {
        Told(Apply(s, steps[0]), steps[1..]);
      }
    }
  }

  // Before a callback is set none is called.
  lemma {:induction false} NobodyCalled(s: State, steps: seq<Step>)
    requires !s.callback && s.calling == None && s.delivered == None && Possible(s, steps) && Register !in steps
    ensures var end := Run(s, steps); !end.callback && end.calling == None && end.delivered == None
    decreases |steps|
  {
    if steps != [] {
      assert steps[0] in steps && forall step :: step in steps[1..] ==> step in steps;
      NobodyCalled(Apply(s, steps[0]), steps[1..]);
    }
  }

  // So over every history of a coordinator, a callback set after the steps before ends up with the
  // current value exactly if at that moment the current value was still waiting to be notified, or
  // a later step changes it.
  lemma FirstCallback(before: seq<Step>, after: seq<Step>)
    requires Possible(INITIAL, before) && Register !in before
    requires Possible(Apply(Run(INITIAL, before), Register), after) && Quiet(Run(Apply(Run(INITIAL, before), Register), after))
    ensures var s := Run(INITIAL, before);
            var end := Run(Apply(s, Register), after);
            && (end.delivered == Some(end.isMaster) <==> s.isMaster in s.waiting || ChangesIn(Apply(s, Register), after))
            && (end.delivered == None <==> !(s.isMaster in s.waiting || ChangesIn(Apply(s, Register), after)))
  {
    NobodyCalled(INITIAL, before);
    Told(Apply(Run(INITIAL, before), Register), after);
  }

  // Both cases occur. A callback set after the first election's notification is over is not told
  // that the node is master; one set while the notification is waiting is.
  lemma LateCallback()
    ensures var before := [SetMaster(true), Check(true)];
            && Possible(INITIAL, before)
            && var end := Apply(Run(INITIAL, before), Register);
               end.known && end.isMaster && Quiet(end) && end.delivered == None
    ensures var before, after := [SetMaster(true)], [Check(true), Deliver];
            && Possible(INITIAL, before) && Possible(Apply(Run(INITIAL, before), Register), after)
            && var end := Run(Apply(Run(INITIAL, before), Register), after);
               end.isMaster && Quiet(end) && end.delivered == Some(true)
  {
    var s := Apply(INITIAL, SetMaster(true));
    assert s.waiting == multiset{true};
    RunTwo(INITIAL, SetMaster(true), Check(true));
    RunOne(INITIAL, SetMaster(true));
    RunTwo(Apply(s, Register), Check(true), Deliver);
  }

  lemma RunOne(s: State, step: Step)
    requires Enabled(s, step)
    ensures Possible(s, [step]) && Run(s, [step]) == Apply(s, step)
  {
    assert [step][1..] == [];
    assert Possible(Apply(s, step), []) && Run(Apply(s, step), []) == Apply(s, step);
  }

  lemma RunTwo(s: State, first: Step, second: Step)
    requires Enabled(s, first) && Enabled(Apply(s, first), second)
    ensures Possible(s, [first, second]) && Run(s, [first, second]) == Apply(Apply(s, first), second)
  {
    assert [first, second][1..] == [second];
    RunOne(Apply(s, first), second);
  }

  // -- The coordinator's fields ------------------------------------------------------------

  // The timer runtime is not part of the object: armed says which lease its timer was started for.
  class Coordinator {
    var isMaster: bool
    var masterKnown: bool
    var masterLease: nat
    var masterTimer: Option<nat>

    // The object shows the lease part of a state.
    ghost predicate Shows(s: State)
      reads this
    {
      isMaster == s.isMaster && masterKnown == s.known && masterLease == s.lease && (s.armed.Some? ==> masterTimer == s.armed)
    }

    method SetMaster(next: bool, ghost s: State) returns (changed: bool)
      requires Shows(s)
      modifies this
      ensures Shows(Apply(s, Step.SetMaster(next)))
      ensures Apply(s, Step.SetMaster(next)).waiting == Notify(s.waiting, changed, next)
    {
      changed := !masterKnown || isMaster != next;
      isMaster, masterKnown, masterLease := next, true, masterLease + 1;
      masterTimer := None;
      if next { masterTimer := Some(masterLease); }
    }

    method ExpireMasterLease(lease: nat, ghost s: State) returns (changed: bool)
      requires Shows(s) && lease in s.fired
      modifies this
      ensures Shows(Apply(s, Expire(lease)))
      ensures Apply(s, Expire(lease)).waiting == Notify(s.waiting, changed, false)
    {
      if masterLease != lease || !isMaster { return false; }
      isMaster, masterKnown, masterTimer := false, true, None;
      changed := true;
    }

    // Under the callback mutex: whether the callback is to be called with this value.
    method NotifyMasterChanged(master: bool, callback: bool, ghost s: State) returns (call: bool)
      requires Shows(s) && callback == s.callback && Enabled(s, Check(master))
      ensures call == (Apply(s, Check(master)).calling == Some(master))
    {
      call := isMaster == master && callback;
    }
  }
}
