/** Reconnecting the listen client: one shared timer, doubling delay, reset on success. */
module Backoff {
  import opened ChatTypes

  const INITIAL_RECONNECT_MS: nat := 1000
  const MAX_RECONNECT_MS: nat := 30000

  datatype State = State(
    destroyed: bool,
    timer: Option<nat>,   // reconnectTimer, a handle of the event loop
    backoffMs: nat,       // reconnectBackoffMs
    pending: set<nat>,    // timers the event loop will fire
    nextHandle: nat,
    delays: seq<nat>)     // delays armed since the last successful reconnect

  datatype Step =
    | ClientError           // the client's error handler
    | TimerFires(handle: nat)
    | Reconnected           // doReconnect runs to its end
    | ReconnectFailed       // doReconnect catches
    | Destroy

  const START := State(false, None, INITIAL_RECONNECT_MS, {}, 0, [])

  function Capped(ms: nat): nat {
    if ms < MAX_RECONNECT_MS then ms else MAX_RECONNECT_MS
  }

  function Pow2(k: nat): nat {
    if k == 0 then 1 else 2 * Pow2(k - 1)
  }

  function Schedule(b: State): State {
    if b.destroyed || b.timer.Some? then b
    else State(false, Some(b.nextHandle), Capped(b.backoffMs * 2), b.pending + {b.nextHandle}, b.nextHandle + 1,
               b.delays + [b.backoffMs])
  }

  predicate Enabled(b: State, step: Step) {
    step.TimerFires? ==> step.handle in b.pending
  }

  function Apply(b: State, step: Step): State {
    match step
    case ClientError => Schedule(b)
    case TimerFires(h) => b.(timer := None, pending := b.pending - {h})
    case Reconnected => b.(backoffMs := INITIAL_RECONNECT_MS, delays := [])
    case ReconnectFailed => Schedule(b)
    case Destroy =>
      b.(destroyed := true, timer := None,
         pending := match b.timer case None => b.pending case Some(h) => b.pending - {h})
  }

  function Run(b: State, steps: seq<Step>): State
    decreases |steps|
  {
    if steps == [] then b else Run(Apply(b, steps[0]), steps[1..])
  }

  predicate Runnable(b: State, steps: seq<Step>)
    decreases |steps|
  {
    steps == [] || (Enabled(b, steps[0]) && Runnable(Apply(b, steps[0]), steps[1..]))
  }

  ghost predicate Inv(b: State) {
    && b.pending == (match b.timer case None => {} case Some(h) => {h})
    && b.backoffMs == Capped(INITIAL_RECONNECT_MS * Pow2(|b.delays|))
    && (forall k :: 0 <= k < |b.delays| ==> b.delays[k] == Capped(INITIAL_RECONNECT_MS * Pow2(k)))
    && (b.destroyed ==> b.pending == {})
  }

  lemma StepInv(b: State, step: Step)
    requires Inv(b) && Enabled(b, step)
    ensures Inv(Apply(b, step))
  {
  }

  lemma {:induction false} RunInv(b: State, steps: seq<Step>)
    requires Inv(b) && Runnable(b, steps)
    ensures Inv(Run(b, steps))
    decreases |steps|
  {
    if steps != [] {
      StepInv(b, steps[0]);
      RunInv(Apply(b, steps[0]), steps[1..]);
    }
  }

  // --- Read off the steps alone --------------------------------------------------------------------

  /** A step that asks for a reconnect. */
  predicate Asks(step: Step) {
    step == ClientError || step == ReconnectFailed
  }

  /** The service has asked for a reconnect before its destroy, and no timer has fired since. */
  predicate Waiting(steps: seq<Step>) {
    if steps == [] then false
    else
      var front, last := steps[..|steps| - 1], steps[|steps| - 1];
      match last
      case ClientError => Waiting(front) || Destroy !in front
      case ReconnectFailed => Waiting(front) || Destroy !in front
      case TimerFires(_) => false
      case Reconnected => Waiting(front)
      case Destroy => false
  }

  /** The last step has to arm a timer: it asks for one, none is waited for, and nothing is destroyed. */
  predicate MustArm(front: seq<Step>, last: Step) {
    Asks(last) && !Waiting(front) && Destroy !in front
  }

  /** How many timers the steps have to have armed since the last success. */
  function Armings(steps: seq<Step>): nat {
    if steps == [] then 0
    else
      var front, last := steps[..|steps| - 1], steps[|steps| - 1];
      if last == Reconnected then 0
      else if MustArm(front, last) then Armings(front) + 1
      else Armings(front)
  }

  function Milliseconds(k: nat): nat {
    if 1000 * Pow2(k) < 30000 then 1000 * Pow2(k) else 30000
  }

  lemma {:induction false} RunSnoc(b: State, steps: seq<Step>)
    requires steps != [] && Runnable(b, steps)
    ensures var front, last := steps[..|steps| - 1], steps[|steps| - 1];
            && Runnable(b, front) && Enabled(Run(b, front), last)
            && Run(b, steps) == Apply(Run(b, front), last)
    decreases |steps|
  {
    var front := steps[..|steps| - 1];
    if |steps| == 1 {
      assert steps[1..] == [];
      assert Run(Apply(b, steps[0]), []) == Apply(b, steps[0]);
    } else {
      RunSnoc(Apply(b, steps[0]), steps[1..]);
      assert steps[1..][..|steps| - 2] == front[1..];
    }
  }

  /** What the steps say about the state. */
  ghost predicate Matches(b: State, steps: seq<Step>) {
    && Inv(b)
    && (b.destroyed <==> Destroy in steps)
    && (b.pending != {} <==> Waiting(steps))
    && |b.delays| == Armings(steps)
    && (Destroy in steps ==> !Waiting(steps))
  }

  lemma {:induction false} MatchesStep(b: State, front: seq<Step>, last: Step)
    requires Matches(b, front) && Enabled(b, last)
    ensures Matches(Apply(b, last), front + [last])
  {
    var steps := front + [last];
    assert steps[..|front|] == front && steps[|front|] == last;
    StepInv(b, last);
    assert Destroy in steps <==> Destroy in front || last == Destroy;
  }

  lemma {:induction false} MatchesRun(steps: seq<Step>)
    requires Runnable(START, steps)
    ensures Matches(Run(START, steps), steps)
    decreases |steps|
  {
    if steps != [] {
      var front, last := steps[..|steps| - 1], steps[|steps| - 1];
      RunSnoc(START, steps);
      MatchesRun(front);
      MatchesStep(Run(START, front), front, last);
      assert steps == front + [last];
    }
  }

  /** In every run, with any number of reconnect attempts overlapping, read off its steps alone: a timer is
      pending, and can fire, exactly while one is waited for, it is one and the one the service knows; and the
      timers armed since the last success, as many as had to be, waited min(1000 * 2^k, 30000) ms in turn. */
  lemma {:induction false} ReconnectBackoff(steps: seq<Step>)
    requires Runnable(START, steps)
    ensures var b := Run(START, steps);
            && (b.pending != {} <==> Waiting(steps)) && |b.pending| <= 1
            && (Waiting(steps) <==> exists h :: Enabled(b, TimerFires(h)))
            && (forall h :: h in b.pending <==> b.timer == Some(h))
            && |b.delays| == Armings(steps)
            && (forall k :: 0 <= k < |b.delays| ==> b.delays[k] == Milliseconds(k))
  {
    MatchesRun(steps);
    var b := Run(START, steps);
    if b.pending != {} {
      assert Enabled(b, TimerFires(b.timer.value));
    }
  }

  /** Whenever a service that is not destroyed asks for a reconnect, one timer is pending afterwards. If none was
      pending before, it is a new one, and its delay is min(1000 * 2^k, 30000) ms, k timers having been armed
      since the last success. */
  lemma {:induction false} AskingArms(steps: seq<Step>, ask: Step)
    requires Runnable(START, steps) && Asks(ask) && Destroy !in steps
    ensures var b, b' := Run(START, steps), Apply(Run(START, steps), ask);
            && |b'.pending| == 1
            && (Waiting(steps) ==> b' == b)
            && (!Waiting(steps) ==>
                  && b.pending == {} && b'.pending == {b.nextHandle} && b'.timer == Some(b.nextHandle)
                  && b'.nextHandle == b.nextHandle + 1
                  && b'.delays == b.delays + [Milliseconds(Armings(steps))])
  {
    MatchesRun(steps);
    StepInv(Run(START, steps), ask);
  }

  lemma {:induction false} DestroyedStays(b: State, steps: seq<Step>)
    requires Inv(b) && b.destroyed && Runnable(b, steps)
    ensures Run(b, steps).destroyed && Run(b, steps).pending == {} && Run(b, steps).nextHandle == b.nextHandle
    decreases |steps|
  {
    if steps != [] {
      StepInv(b, steps[0]);
      DestroyedStays(Apply(b, steps[0]), steps[1..]);
    }
  }

  lemma {:induction false} RunConcat(b: State, front: seq<Step>, rest: seq<Step>)
    requires Runnable(b, front + rest)
    ensures Runnable(b, front) && Runnable(Run(b, front), rest)
    ensures Run(b, front + rest) == Run(Run(b, front), rest)
    decreases |front|
  {
    if front == [] {
      assert front + rest == rest;
    } else {
      assert (front + rest)[1..] == front[1..] + rest;
      RunConcat(Apply(b, front[0]), front[1..], rest);
    }
  }

  /** After a destroy, wherever it comes in a run, no timer is pending and none is armed again. */
  lemma {:induction false} NoTimerAfterDestroy(before: seq<Step>, after: seq<Step>)
    requires Runnable(START, before + ([Destroy] + after))
    ensures Runnable(START, before)
    ensures var b := Run(START, before + ([Destroy] + after));
            b.pending == {} && b.timer == None && b.nextHandle == Run(START, before).nextHandle
  {
    RunConcat(START, before, [Destroy] + after);
    RunInv(START, before);
    var b := Run(START, before);
    assert ([Destroy] + after)[1..] == after;
    StepInv(b, Destroy);
    DestroyedStays(Apply(b, Destroy), after);
    RunInv(Apply(b, Destroy), after);
  }
}
