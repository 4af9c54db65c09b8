/** Which listen client is open around a reconnect and a shutdown. `doReconnect` looks at `destroyed` once, before
    its awaits; `onModuleDestroy` ends the client the service holds at that moment. */
module ListenClients {

  /** Where `doReconnect` stands: awaiting the end of the old client, or the connection of the new one. */
  datatype Stage = Resting | EndingOld | Connecting

  /** Clients are numbered in the order they are created; `client` is the one the service holds. */
  datatype State = State(destroyed: bool, client: nat, stage: Stage, open: set<nat>, ended: set<nat>)

  datatype Step =
    | Attempt             // the reconnect timer fires
    | OldEnded            // the old client has ended and the new one is created
    | Connected(ok: bool) // the new client's connection succeeds or fails
    | Lost                // the open connection breaks
    | Destroy

  const START := State(false, 0, Resting, {0}, {})

  predicate Enabled(c: State, step: Step) {
    match step
    case Attempt => c.stage == Resting
    case OldEnded => c.stage == EndingOld
    case Connected(_) => c.stage == Connecting
    case Destroy => !c.destroyed
    case Lost => true
  }

  /** A client that was ended while it was connecting does not open. */
  function Apply(c: State, step: Step): State {
    match step
    case Attempt =>
      if c.destroyed then c
      else c.(stage := EndingOld, open := c.open - {c.client}, ended := c.ended + {c.client})
    case OldEnded => c.(client := c.client + 1, stage := Connecting)
    case Connected(ok) =>
      c.(stage := Resting, open := if ok && c.client !in c.ended then c.open + {c.client} else c.open)
    case Lost => c.(open := {})
    case Destroy => c.(destroyed := true, open := c.open - {c.client}, ended := c.ended + {c.client})
  }

  predicate Runnable(c: State, steps: seq<Step>)
    decreases |steps|
  {
    steps == [] || (Enabled(c, steps[0]) && Runnable(Apply(c, steps[0]), steps[1..]))
  }

  function Run(c: State, steps: seq<Step>): State
    decreases |steps|
  {
    if steps == [] then c else Run(Apply(c, steps[0]), steps[1..])
  }

  /** Only the held client can be open, and it has not been ended; while the old one is being ended, none is. */
  ghost predicate Inv(c: State) {
    && c.open <= {c.client} && c.open * c.ended == {}
    && (forall k :: k in c.ended ==> k <= c.client)
    && (c.stage == EndingOld ==> c.client in c.ended)
    && (c.stage == Connecting ==> c.open == {})
  }

  lemma StepInv(c: State, step: Step)
    requires Inv(c) && Enabled(c, step)
    ensures Inv(Apply(c, step))
  {
  }

  lemma {:induction false} RunInv(c: State, steps: seq<Step>)
    requires Inv(c) && Runnable(c, steps)
    ensures Inv(Run(c, steps))
    decreases |steps|
  {
    if steps != [] {
      StepInv(c, steps[0]);
      RunInv(Apply(c, steps[0]), steps[1..]);
    }
  }

  /** A destroyed service that holds an ended client and is not about to replace it. */
  ghost predicate Closed(c: State) {
    c.destroyed && c.stage != EndingOld && c.client in c.ended && c.open == {}
  }

  lemma {:induction false} ClosedStays(c: State, steps: seq<Step>)
    requires Closed(c) && Runnable(c, steps)
    ensures Run(c, steps).open == {}
    decreases |steps|
  {
    if steps != [] {
      ClosedStays(Apply(c, steps[0]), steps[1..]);
    }
  }

  /** A client can be open after the service is destroyed exactly when the destroy came while `doReconnect` was
      awaiting the end of the old client. */
  lemma {:induction false} OutlivesIff(before: seq<Step>)
    requires Runnable(START, before) && !Run(START, before).destroyed
    ensures var c := Apply(Run(START, before), Destroy);
            (exists after :: Runnable(c, after) && Run(c, after).open != {}) <==>
            Run(START, before).stage == EndingOld
  {
    RunInv(START, before);
    var c := Apply(Run(START, before), Destroy);
    if Run(START, before).stage == EndingOld {
      Outlives(c);
    } else {
      assert Closed(c);
      forall after | Runnable(c, after) ensures Run(c, after).open == {} {
        ClosedStays(c, after);
      }
    }
  }

  lemma {:induction false} Outlives(c: State)
    requires Inv(c) && c.stage == EndingOld
    ensures Runnable(c, [OldEnded, Connected(true)]) && Run(c, [OldEnded, Connected(true)]).open != {}
  {
    var c1 := Apply(c, OldEnded);
    var c2 := Apply(c1, Connected(true));
    assert c1.client in c2.open;
    assert [OldEnded, Connected(true)][1..] == [Connected(true)] && [Connected(true)][1..] == [];
    assert Run(c2, []) == c2;
    assert Run(c1, [Connected(true)]) == c2;
  }

  /** Once the connection breaks, the service is destroyed, or a live service starts to replace its client, no
      client is open until a later connection succeeds. */
  lemma {:induction false} ClosedUntilConnected(before: seq<Step>, step: Step, after: seq<Step>)
    requires Runnable(START, before) && Enabled(Run(START, before), step)
    requires step.Lost? || step.Destroy? || (step.Attempt? && !Run(START, before).destroyed)
    requires Runnable(Apply(Run(START, before), step), after) && Connected(true) !in after
    ensures Run(Apply(Run(START, before), step), after).open == {}
  {
    RunInv(START, before);
    NothingOpens(Apply(Run(START, before), step), after);
  }

  lemma {:induction false} NothingOpens(c: State, steps: seq<Step>)
    requires c.open == {} && Runnable(c, steps) && Connected(true) !in steps
    ensures Run(c, steps).open == {}
    decreases |steps|
  {
    if steps != [] {
      assert steps[0] in steps;
      NothingOpens(Apply(c, steps[0]), steps[1..]);
    }
  }
}
