/** The LISTEN side of `PostgresService`: a reference count per room drives LISTEN and UNLISTEN through
    the client's FIFO command queue; a failed command rolls its count back; after a reconnect the live
    count map is re-listened one awaited command at a time while other calls go on changing it. */
module ListenManager {
  import opened ChatTypes
  import EcmaMap

  /** `Relisten` is the LISTEN issued by `ensureListenChannels`. */
  datatype Command = Listen(room: Room) | Unlisten(room: Room) | Relisten(room: Room)

  /** The loop of `ensureListenChannels`: about to ask the map iterator for the next key, or awaiting
      the LISTEN of the key before `pos`. */
  datatype Loop = Idle | Ready(pos: nat) | Awaiting(pos: nat)

  datatype Manager = Manager(
    counts: EcmaMap.Map<Room, nat>,  // roomSubscriptionCounts
    queue: seq<Command>,             // issued on the listen client, not yet answered
    listening: set<Room>,            // what the server session listens to
    live: bool,                      // the session exists
    loop: Loop)

  datatype Step =
    | Subscribe(room: Room)
    | Unsubscribe(room: Room)
    | Serve(ok: bool)    // the server answers the oldest command, or the client rejects it
    | Iterate            // ensureListenChannels takes its next key
    | SessionLost
    | Reconnect          // doReconnect has a new connected client

  function Start(): (m: Manager)
    ensures WellFormed(m)
  {
    Manager(EcmaMap.Empty(), [], {}, true, Idle)
  }

  function Count(m: Manager, r: Room): nat {
    if r in m.counts.vals then m.counts.vals[r] else 0
  }

  ghost predicate WellFormed(m: Manager) {
    && m.counts.Valid()
    && (forall r :: r in m.counts.vals ==> 0 < m.counts.vals[r])
    && (m.loop.Idle? || m.loop.pos <= |m.counts.slots|)
  }

  function DoSubscribe(m: Manager, r: Room): (m': Manager)
    requires WellFormed(m)
    ensures WellFormed(m')
  {
    var m1 := m.(counts := m.counts.Set(r, Count(m, r) + 1));
    if Count(m, r) == 0 then m1.(queue := m.queue + [Listen(r)]) else m1
  }

  function DoUnsubscribe(m: Manager, r: Room): (m': Manager)
    requires WellFormed(m)
    ensures WellFormed(m')
  {
    if Count(m, r) == 0 then m
    else if Count(m, r) > 1 then m.(counts := m.counts.Set(r, Count(m, r) - 1))
    else m.(counts := m.counts.Delete(r), queue := m.queue + [Unlisten(r)])
  }

  /** The `catch` of the rejected command. */
  function RollBack(m: Manager, c: Command): (m': Manager)
    requires WellFormed(m)
    ensures WellFormed(m')
  {
    match c
    case Listen(r) => m.(counts := m.counts.Delete(r))
    case Unlisten(r) => m.(counts := m.counts.Set(r, 1))
    case Relisten(r) => m.(loop := Idle)
  }

  function Obey(listening: set<Room>, c: Command): set<Room> {
    if c.Unlisten? then listening - {c.room} else listening + {c.room}
  }

  function Enabled(m: Manager, step: Step): bool {
    match step
    case Serve(ok) => m.queue != [] && (ok ==> m.live)
    case Iterate => m.loop.Ready?
    case Reconnect => m.queue == []
    case _ => true
  }

  function Apply(m: Manager, step: Step): (m': Manager)
    requires WellFormed(m) && Enabled(m, step)
    ensures WellFormed(m')
  {
    match step
    case Subscribe(r) => DoSubscribe(m, r)
    case Unsubscribe(r) => DoUnsubscribe(m, r)
    case Serve(ok) =>
      var c, m1 := m.queue[0], m.(queue := m.queue[1..]);
      if !ok then RollBack(m1, c)
      else m1.(listening := Obey(m.listening, c),
               loop := if c.Relisten? && m.loop.Awaiting? then Ready(m.loop.pos) else m.loop)
    case Iterate =>
      var p := EcmaMap.Seek(m.counts.slots, m.loop.pos);
      if p == |m.counts.slots| then m.(loop := Idle)
      else m.(loop := Awaiting(p + 1), queue := m.queue + [Relisten(m.counts.slots[p].key)])
    case SessionLost => m.(listening := {}, live := false)
    case Reconnect => m.(listening := {}, live := true, loop := Ready(0))
  }

  function Run(m: Manager, steps: seq<Step>): (m': Manager)
    requires WellFormed(m) && Runnable(m, steps)
    ensures WellFormed(m')
    decreases |steps|
  {
    if steps == [] then m else Run(Apply(m, steps[0]), steps[1..])
  }

  predicate Runnable(m: Manager, steps: seq<Step>)
    requires WellFormed(m)
    decreases |steps|
  {
    steps == [] || (Enabled(m, steps[0]) && Runnable(Apply(m, steps[0]), steps[1..]))
  }

  // --- Replaying the queue ---------------------------------------------------------------------

  /** The listening set once every queued command has been obeyed. */
  function Replay(queue: seq<Command>, listening: set<Room>): set<Room> {
    if queue == [] then listening else Replay(queue[1..], Obey(listening, queue[0]))
  }

  function Drained(m: Manager): set<Room> {
    Replay(m.queue, m.listening)
  }

  lemma {:induction false} ReplayAppend(queue: seq<Command>, c: Command, listening: set<Room>)
    ensures Replay(queue + [c], listening) == Obey(Replay(queue, listening), c)
  {
    if queue == [] {
      assert [c][1..] == [];
      assert Replay([c], listening) == Replay([], Obey(listening, c));
    } else {
      assert (queue + [c])[1..] == queue[1..] + [c];
      ReplayAppend(queue[1..], c, Obey(listening, queue[0]));
    }
  }

  /** The last queued command that concerns room `r`. */
  function LastFor(queue: seq<Command>, r: Room): Option<Command> {
    if queue == [] then None
    else if queue[|queue| - 1].room == r then Some(queue[|queue| - 1])
    else LastFor(queue[..|queue| - 1], r)
  }

  /** Whether a room ends up listened to depends on its last queued command only. */
  lemma {:induction false} ReplayLast(queue: seq<Command>, listening: set<Room>, r: Room)
    ensures r in Replay(queue, listening) <==>
            match LastFor(queue, r) case None => r in listening case Some(c) => !c.Unlisten?
    decreases |queue|
  {
    if queue != [] {
      var front, c := queue[..|queue| - 1], queue[|queue| - 1];
      assert queue == front + [c];
      ReplayAppend(front, c, listening);
      ReplayLast(front, listening, r);
    }
  }

  // --- The safety invariant --------------------------------------------------------------------

  /** The re-listening loop has yet to reach the room's entry. */
  ghost predicate Ahead(m: Manager, r: Room) {
    !m.loop.Idle? && exists i :: m.loop.pos <= i < |m.counts.slots| && m.counts.slots[i] == EcmaMap.Key(r)
  }

  ghost predicate Covered(m: Manager, r: Room) {
    && (r in Drained(m) ==> r in m.counts.vals)
    && (r in m.counts.vals ==> r in Drained(m) || Ahead(m, r))
  }

  /** Every counted room is listened to once the queue drains or is still ahead of the loop, and no
      uncounted room is listened to. */
  ghost predicate Listened(m: Manager) {
    m.live && forall r :: Covered(m, r)
  }

  predicate FailureFree(steps: seq<Step>) {
    forall i :: 0 <= i < |steps| ==> steps[i] != Serve(false) && steps[i] != SessionLost
  }

  lemma {:induction false} SubscribeListened(m: Manager, r: Room)
    requires WellFormed(m) && Listened(m)
    ensures Listened(DoSubscribe(m, r))
  {
    var m' := DoSubscribe(m, r);
    ReplayAppend(m.queue, Listen(r), m.listening);
    forall x ensures Covered(m', x) {
      assert Covered(m, x);
      assert Ahead(m, x) ==> Ahead(m', x);
    }
  }

  lemma {:induction false} UnsubscribeListened(m: Manager, r: Room)
    requires WellFormed(m) && Listened(m)
    ensures Listened(DoUnsubscribe(m, r))
  {
    var m' := DoUnsubscribe(m, r);
    ReplayAppend(m.queue, Unlisten(r), m.listening);
    forall x ensures Covered(m', x) {
      assert Covered(m, x);
      if Ahead(m, x) && (x != r || Count(m, r) > 1) {
        var i :| m.loop.pos <= i < |m.counts.slots| && m.counts.slots[i] == EcmaMap.Key(x);
        assert m'.counts.slots[i] == EcmaMap.Key(x);
      }
    }
  }

  lemma {:induction false} IterateListened(m: Manager)
    requires WellFormed(m) && Listened(m) && m.loop.Ready?
    ensures Listened(Apply(m, Iterate))
  {
    var m' := Apply(m, Iterate);
    var p := EcmaMap.Seek(m.counts.slots, m.loop.pos);
    if p < |m.counts.slots| {
      ReplayAppend(m.queue, Relisten(m.counts.slots[p].key), m.listening);
    }
    forall x ensures Covered(m', x) {
      assert Covered(m, x);
      if Ahead(m, x) {
        var i :| m.loop.pos <= i < |m.counts.slots| && m.counts.slots[i] == EcmaMap.Key(x);
        assert p <= i;
      }
    }
  }

  lemma {:induction false} StepListened(m: Manager, step: Step)
    requires WellFormed(m) && Enabled(m, step) && FailureFree([step])
    requires Listened(m) || step.Reconnect?
    ensures Listened(Apply(m, step))
  {
    var m' := Apply(m, step);
    assert [step][0] == step;
    match step
    case Subscribe(r) => SubscribeListened(m, r);
    case Unsubscribe(r) => UnsubscribeListened(m, r);
    case Iterate => IterateListened(m);
    case Serve(ok) =>
      forall x ensures Covered(m', x) {
        assert Covered(m, x);
        assert Ahead(m, x) ==> Ahead(m', x);
      }
    case Reconnect =>
      forall x ensures Covered(m', x) {
        if x in m.counts.vals {
          var i :| 0 <= i < |m.counts.slots| && m.counts.slots[i] == EcmaMap.Key(x);
          assert Ahead(m', x);
        }
      }
  }

  lemma {:induction false} RunListened(m: Manager, steps: seq<Step>)
    requires WellFormed(m) && Runnable(m, steps) && FailureFree(steps) && Listened(m)
    ensures Listened(Run(m, steps))
    decreases |steps|
  {
    if steps != [] {
      assert steps[0] != Serve(false) && steps[0] != SessionLost;
      StepListened(m, steps[0]);
      assert forall i :: 0 <= i < |steps[1..]| ==> steps[1..][i] == steps[i + 1];
      RunListened(Apply(m, steps[0]), steps[1..]);
    }
  }

  lemma {:induction false} Settled(m: Manager)
    requires Listened(m) && m.loop.Idle?
    ensures Drained(m) == m.counts.vals.Keys
  {
    forall r ensures r in Drained(m) <==> r in m.counts.vals.Keys {
      assert Covered(m, r);
    }
  }

  /** LISTEN-queue refinement. From the start, through any failure-free interleaving of subscribes,
      unsubscribes, server answers, loop steps and reconnects, replaying the queue onto the server's
      listening set gives exactly the counted rooms whenever no re-listening loop is under way. */
  lemma {:induction false} QueueRefinesCounts(steps: seq<Step>)
    requires Runnable(Start(), steps) && FailureFree(steps)
    ensures var m := Run(Start(), steps);
            && (m.loop.Idle? ==> Drained(m) == m.counts.vals.Keys)
            && (m.loop.Idle? && m.queue == [] ==> m.listening == m.counts.vals.Keys)
            && forall r :: r in m.counts.vals ==> 0 < m.counts.vals[r]
  {
    assert Listened(Start()) by { assert forall r :: Covered(Start(), r); }
    RunListened(Start(), steps);
    var m := Run(Start(), steps);
    if m.loop.Idle? { Settled(m); }
  }

  /** Re-subscription under interleaving. Whatever happened before, failures included, once a reconnect
      has a new client and no further command fails, every counted room is listened to after draining or
      still ahead of the loop, nothing uncounted is; and when the loop has ended the drained listening
      set is exactly the counted rooms. */
  lemma {:induction false} Resubscription(before: seq<Step>, after: seq<Step>)
    requires Runnable(Start(), before) && Enabled(Run(Start(), before), Reconnect)
    requires Runnable(Apply(Run(Start(), before), Reconnect), after) && FailureFree(after)
    ensures var m := Run(Apply(Run(Start(), before), Reconnect), after);
            && (forall r :: Covered(m, r))
            && (m.loop.Idle? ==> Drained(m) == m.counts.vals.Keys)
  {
    var m0 := Apply(Run(Start(), before), Reconnect);
    assert FailureFree([Reconnect]);
    StepListened(Run(Start(), before), Reconnect);
    RunListened(m0, after);
    var m := Run(m0, after);
    if m.loop.Idle? { Settled(m); }
  }

  // --- The re-listening loop goes on -----------------------------------------------------------------

  /** The rooms whose entries lie at or after a place in the count map. */
  function KeysFrom(slots: seq<EcmaMap.Slot<Room>>, pos: nat): set<Room>
    requires pos <= |slots|
    decreases |slots| - pos
  {
    if pos == |slots| then {}
    else (if slots[pos].Key? then {slots[pos].key} else {}) + KeysFrom(slots, pos + 1)
  }

  lemma {:induction false} KeysFromIff(slots: seq<EcmaMap.Slot<Room>>, pos: nat, r: Room)
    requires pos <= |slots|
    ensures r in KeysFrom(slots, pos) <==> exists i :: pos <= i < |slots| && slots[i] == EcmaMap.Key(r)
    decreases |slots| - pos
  {
    if pos < |slots| {
      KeysFromIff(slots, pos + 1, r);
    }
  }

  lemma {:induction false} KeysFromSeek(slots: seq<EcmaMap.Slot<Room>>, pos: nat)
    requires pos <= |slots| && EcmaMap.DistinctKeys(slots)
    ensures var p := EcmaMap.Seek(slots, pos);
            if p == |slots| then KeysFrom(slots, pos) == {}
            else
              && slots[p].key !in KeysFrom(slots, p + 1)
              && KeysFrom(slots, pos) == {slots[p].key} + KeysFrom(slots, p + 1)
    decreases |slots| - pos
  {
    if pos < |slots| && !slots[pos].Key? {
      KeysFromSeek(slots, pos + 1);
    } else if pos < |slots| {
      KeysFromIff(slots, pos + 1, slots[pos].key);
    }
  }

  lemma {:induction false} AllKeys(counts: EcmaMap.Map<Room, nat>)
    requires counts.Valid()
    ensures KeysFrom(counts.slots, 0) == counts.vals.Keys
  {
    forall r ensures r in KeysFrom(counts.slots, 0) <==> r in counts.vals.Keys {
      KeysFromIff(counts.slots, 0, r);
    }
  }

  /** A turn of the loop for each of `k` rooms, each LISTEN answered, and the turn that finds no more. */
  function Turns(k: nat): seq<Step> {
    if k == 0 then [Iterate] else [Iterate, Serve(true)] + Turns(k - 1)
  }

  /** A live session with nothing queued, and the loop about to take its next key. */
  ghost predicate Relistening(m: Manager) {
    WellFormed(m) && m.live && m.queue == [] && m.loop.Ready?
  }

  /** One turn and its answer. */
  lemma {:induction false} OneTurn(m: Manager)
    requires Relistening(m) && EcmaMap.Seek(m.counts.slots, m.loop.pos) < |m.counts.slots|
    ensures Enabled(m, Iterate) && Enabled(Apply(m, Iterate), Serve(true))
    ensures var p, m2 := EcmaMap.Seek(m.counts.slots, m.loop.pos), Apply(Apply(m, Iterate), Serve(true));
            && Relistening(m2) && m2.loop.pos == p + 1 && m2.counts == m.counts
            && m2.listening == m.listening + {m.counts.slots[p].key}
  {
    var p := EcmaMap.Seek(m.counts.slots, m.loop.pos);
    assert Apply(m, Iterate).queue == [Relisten(m.counts.slots[p].key)];
  }

  /** The turn that finds no more keys. */
  lemma {:induction false} LastTurn(m: Manager)
    requires Relistening(m) && EcmaMap.Seek(m.counts.slots, m.loop.pos) == |m.counts.slots|
    ensures Enabled(m, Iterate) && Apply(m, Iterate) == m.(loop := Idle)
    ensures Runnable(m, Turns(0)) && Run(m, Turns(0)) == m.(loop := Idle)
  {
    assert [Iterate][1..] == [];
    assert Run(Apply(m, Iterate), []) == Apply(m, Iterate);
  }

  lemma {:induction false} RoomsLeft(slots: seq<EcmaMap.Slot<Room>>, pos: nat)
    requires pos <= |slots| && EcmaMap.DistinctKeys(slots)
    ensures var p := EcmaMap.Seek(slots, pos);
            |KeysFrom(slots, pos)| == if p == |slots| then 0 else |KeysFrom(slots, p + 1)| + 1
  {
    KeysFromSeek(slots, pos);
  }

  /** The loop's end, with these rooms listened to besides those before. */
  ghost predicate Completes(m: Manager, steps: seq<Step>, rooms: set<Room>) {
    && WellFormed(m) && Runnable(m, steps)
    && Run(m, steps) == m.(loop := Idle, listening := m.listening + rooms)
  }

  lemma {:induction false} TwoCons(m: Manager, a: Step, b: Step, rest: seq<Step>)
    requires WellFormed(m) && Enabled(m, a) && Enabled(Apply(m, a), b) && Runnable(Apply(Apply(m, a), b), rest)
    ensures Runnable(m, [a, b] + rest) && Run(m, [a, b] + rest) == Run(Apply(Apply(m, a), b), rest)
  {
    assert ([a, b] + rest)[1..] == [b] + rest && ([b] + rest)[1..] == rest;
  }

  lemma {:induction false} TurnCompletes(m: Manager, rest: seq<Step>, rooms: set<Room>)
    requires Relistening(m) && EcmaMap.Seek(m.counts.slots, m.loop.pos) < |m.counts.slots|
    requires Completes(Apply(Apply(m, Iterate), Serve(true)), rest, rooms)
    ensures var key := m.counts.slots[EcmaMap.Seek(m.counts.slots, m.loop.pos)].key;
            Completes(m, [Iterate, Serve(true)] + rest, {key} + rooms)
  {
    OneTurn(m);
    TwoCons(m, Iterate, Serve(true), rest);
    var key := m.counts.slots[EcmaMap.Seek(m.counts.slots, m.loop.pos)].key;
    assert (m.listening + {key}) + rooms == m.listening + ({key} + rooms);
  }

  lemma {:induction false} TurnsRun(m: Manager)
    requires Relistening(m)
    ensures var rooms := KeysFrom(m.counts.slots, m.loop.pos); Completes(m, Turns(|rooms|), rooms)
    decreases |m.counts.slots| - m.loop.pos
  {
    var slots, pos := m.counts.slots, m.loop.pos;
    var p := EcmaMap.Seek(slots, pos);
    KeysFromSeek(slots, pos);
    RoomsLeft(slots, pos);
    if p == |slots| {
      LastTurn(m);
      assert m.listening + {} == m.listening;
    } else {
      OneTurn(m);
      TurnsRun(Apply(Apply(m, Iterate), Serve(true)));
      TurnCompletes(m, Turns(|KeysFrom(slots, p + 1)|), KeysFrom(slots, p + 1));
    }
  }

  predicate OnlyTurnsAndAnswers(steps: seq<Step>) {
    forall i :: 0 <= i < |steps| ==> steps[i] == Iterate || steps[i] == Serve(true)
  }

  /** Turns and answers that take the loop to its end. */
  ghost predicate Ends(m: Manager, steps: seq<Step>) {
    WellFormed(m) && Runnable(m, steps) && OnlyTurnsAndAnswers(steps) && Run(m, steps).loop.Idle?
  }

  lemma {:induction false} TurnForced(m: Manager, steps: seq<Step>)
    requires Relistening(m) && Ends(m, steps)
    ensures steps != [] && steps[0] == Iterate && Ends(Apply(m, Iterate), steps[1..])
  {
    assert forall i :: 0 <= i < |steps[1..]| ==> steps[1..][i] == steps[i + 1];
  }

  lemma {:induction false} AnswerForced(m: Manager, steps: seq<Step>)
    requires m.loop.Awaiting? && Ends(m, steps)
    ensures steps != [] && steps[0] == Serve(true)
    ensures Enabled(m, Serve(true)) && Ends(Apply(m, Serve(true)), steps[1..])
  {
    assert forall i :: 0 <= i < |steps[1..]| ==> steps[1..][i] == steps[i + 1];
  }

  lemma NothingForced(m: Manager, steps: seq<Step>)
    requires m.loop.Idle? && m.queue == [] && Ends(m, steps)
    ensures steps == []
  {
  }

  lemma {:induction false} TurnsShape(steps: seq<Step>, k: nat)
    requires steps != [] && steps[0] == Iterate
    ensures steps[1..] == [] ==> steps == Turns(0)
    ensures steps[1..] != [] && steps[1..][0] == Serve(true) && steps[1..][1..] == Turns(k) ==> steps == Turns(k + 1)
  {
    assert steps == [steps[0]] + steps[1..];
    assert steps[1..] != [] ==> steps[1..] == [steps[1..][0]] + steps[1..][1..];
  }

  /** The steps are a turn and its answer, and then these. */
  lemma {:induction false} TurnThen(m: Manager, steps: seq<Step>) returns (rest: seq<Step>)
    requires Relistening(m) && Ends(m, steps) && EcmaMap.Seek(m.counts.slots, m.loop.pos) < |m.counts.slots|
    ensures Enabled(m, Iterate) && Enabled(Apply(m, Iterate), Serve(true)) && |rest| < |steps|
    ensures Ends(Apply(Apply(m, Iterate), Serve(true)), rest)
    ensures forall k: nat :: rest == Turns(k) ==> steps == Turns(k + 1)
  {
    TurnForced(m, steps);
    OneTurn(m);
    AnswerForced(Apply(m, Iterate), steps[1..]);
    rest := steps[1..][1..];
    forall k: nat | rest == Turns(k) ensures steps == Turns(k + 1) {
      TurnsShape(steps, k);
    }
  }

  /** With nothing in between, the loop can only go on in this way. */
  lemma {:induction false} OnlyTurns(m: Manager, steps: seq<Step>)
    requires Relistening(m) && Ends(m, steps)
    ensures steps == Turns(|KeysFrom(m.counts.slots, m.loop.pos)|)
    decreases |steps|
  {
    var slots, pos := m.counts.slots, m.loop.pos;
    var p := EcmaMap.Seek(slots, pos);
    RoomsLeft(slots, pos);
    if p == |slots| {
      TurnForced(m, steps);
      LastTurn(m);
      NothingForced(Apply(m, Iterate), steps[1..]);
      TurnsShape(steps, 0);
    } else {
      var rest := TurnThen(m, steps);
      OneTurn(m);
      OnlyTurns(Apply(Apply(m, Iterate), Serve(true)), rest);
    }
  }

  /** Re-listening completes. After any history, once a reconnect has its new client, turns of the loop and
      answers take it to its end, with nothing queued and the server listening to exactly the counted rooms;
      with nothing in between that is its only way on, two steps for each room and one to find the end. */
  lemma {:induction false} RelisteningCompletes(before: seq<Step>)
    requires Runnable(Start(), before) && Enabled(Run(Start(), before), Reconnect)
    ensures var m := Apply(Run(Start(), before), Reconnect);
            var steps := Turns(|m.counts.vals.Keys|);
            && |steps| == 2 * |m.counts.vals.Keys| + 1
            && Runnable(m, steps)
            && Run(m, steps).loop.Idle? && Run(m, steps).queue == []
            && Run(m, steps).counts == m.counts && Run(m, steps).listening == m.counts.vals.Keys
            && forall other :: Runnable(m, other) && OnlyTurnsAndAnswers(other) && Run(m, other).loop.Idle?
                               ==> other == steps
  {
    var m := Apply(Run(Start(), before), Reconnect);
    AllKeys(m.counts);
    TurnsRun(m);
    TurnsLength(|m.counts.vals.Keys|);
    assert m.listening + m.counts.vals.Keys == m.counts.vals.Keys;
    forall other | Runnable(m, other) && OnlyTurnsAndAnswers(other) && Run(m, other).loop.Idle?
      ensures other == Turns(|m.counts.vals.Keys|)
    {
      OnlyTurns(m, other);
    }
  }

  lemma {:induction false} TurnsLength(k: nat)
    ensures |Turns(k)| == 2 * k + 1
  {
    if k > 0 { TurnsLength(k - 1); }
  }

  /** The re-LISTENs in the queue. */
  function Relistens(queue: seq<Command>): nat {
    if queue == [] then 0 else (if queue[0].Relisten? then 1 else 0) + Relistens(queue[1..])
  }

  lemma {:induction false} RelistensSnoc(queue: seq<Command>, c: Command)
    ensures Relistens(queue + [c]) == Relistens(queue) + if c.Relisten? then 1 else 0
  {
    if queue == [] {
      assert [c][1..] == [] && [] + [c] == [c];
    } else {
      assert (queue + [c])[1..] == queue[1..] + [c];
      RelistensSnoc(queue[1..], c);
    }
  }

  /** The loop awaits an answer exactly while its one re-LISTEN is queued. */
  ghost predicate AwaitsOwn(m: Manager) {
    Relistens(m.queue) == if m.loop.Awaiting? then 1 else 0
  }

  lemma {:induction false} AwaitsOwnStep(m: Manager, step: Step)
    requires WellFormed(m) && Enabled(m, step) && AwaitsOwn(m)
    ensures AwaitsOwn(Apply(m, step))
  {
    match step
    case Subscribe(r) => RelistensSnoc(m.queue, Listen(r));
    case Unsubscribe(r) => RelistensSnoc(m.queue, Unlisten(r));
    case Iterate =>
      var p := EcmaMap.Seek(m.counts.slots, m.loop.pos);
      if p < |m.counts.slots| { RelistensSnoc(m.queue, Relisten(m.counts.slots[p].key)); }
    case _ =>
  }

  lemma {:induction false} AwaitsOwnRun(m: Manager, steps: seq<Step>)
    requires WellFormed(m) && Runnable(m, steps) && AwaitsOwn(m)
    ensures AwaitsOwn(Run(m, steps))
    decreases |steps|
  {
    if steps != [] {
      AwaitsOwnStep(m, steps[0]);
      AwaitsOwnRun(Apply(m, steps[0]), steps[1..]);
    }
  }

  /** The loop is never stuck. In every run, failures included, it awaits an answer exactly while its one
      re-LISTEN is queued; a good answer to it lets the loop take the key after, a bad one ends the loop, and no
      other answer touches it. */
  lemma {:induction false} LoopGoesOn(steps: seq<Step>, ok: bool)
    requires Runnable(Start(), steps) && Enabled(Run(Start(), steps), Serve(ok))
    ensures var m := Run(Start(), steps);
            var m' := Apply(m, Serve(ok));
            && AwaitsOwn(m)
            && (m.queue[0].Relisten? && ok ==>
                  m.loop.Awaiting? && Enabled(m', Iterate) && m'.loop == Ready(m.loop.pos))
            && (m.queue[0].Relisten? && !ok ==> m'.loop.Idle? && !Enabled(m', Iterate))
            && (!m.queue[0].Relisten? ==> m'.loop == m.loop)
  {
    AwaitsOwnRun(Start(), steps);
  }

  // --- Lost sessions ---------------------------------------------------------------------------------

  lemma {:induction false} DeadRun(m: Manager, steps: seq<Step>)
    requires WellFormed(m) && Runnable(m, steps) && Reconnect !in steps && !m.live && m.listening == {}
    ensures Run(m, steps).listening == {} && !Run(m, steps).live && Serve(true) !in steps
    decreases |steps|
  {
    if steps != [] {
      assert steps[0] in steps;
      assert forall step :: step in steps[1..] ==> step in steps;
      DeadRun(Apply(m, steps[0]), steps[1..]);
      assert steps == [steps[0]] + steps[1..];
    }
  }

  /** From a lost session until a reconnect nothing is listened to and no command succeeds. */
  lemma {:induction false} LostSessionIsDeaf(m: Manager, after: seq<Step>)
    requires WellFormed(m) && Runnable(Apply(m, SessionLost), after) && Reconnect !in after
    ensures Run(Apply(m, SessionLost), after).listening == {} && Serve(true) !in after
  {
    DeadRun(Apply(m, SessionLost), after);
  }

  /** `k` rejected commands. */
  function Rejections(k: nat): seq<Step> {
    if k == 0 then [] else [Serve(false)] + Rejections(k - 1)
  }

  lemma {:induction false} Rejected(m: Manager)
    requires WellFormed(m)
    ensures Runnable(m, Rejections(|m.queue|)) && Run(m, Rejections(|m.queue|)).queue == []
    decreases |m.queue|
  {
    if m.queue != [] {
      var m1, rest := Apply(m, Serve(false)), Rejections(|m.queue| - 1);
      assert |m1.queue| == |m.queue| - 1;
      Rejected(m1);
      RunCons(m, Serve(false), rest);
    }
  }

  lemma {:induction false} RunConcat(m: Manager, a: seq<Step>, b: seq<Step>)
    requires WellFormed(m) && Runnable(m, a) && Runnable(Run(m, a), b)
    ensures Runnable(m, a + b) && Run(m, a + b) == Run(Run(m, a), b)
    decreases |a|
  {
    if a == [] {
      assert a + b == b;
    } else {
      assert (a + b)[1..] == a[1..] + b;
      RunConcat(Apply(m, a[0]), a[1..], b);
    }
  }

  /** Recovery is always possible: in every state, once the client's commands have been rejected, a reconnect and
      turns of the loop lead to a live session that listens to exactly the rooms then counted. */
  lemma {:induction false} AlwaysRecovers(m: Manager)
    requires WellFormed(m)
    ensures Runnable(m, Rejections(|m.queue|))
    ensures var m1 := Run(m, Rejections(|m.queue|));
            var recovery := [Reconnect] + Turns(|m1.counts.vals.Keys|);
            && Runnable(m1, recovery)
            && Runnable(m, Rejections(|m.queue|) + recovery)
            && var m2 := Run(m, Rejections(|m.queue|) + recovery);
               m2.live && m2.loop.Idle? && m2.queue == [] && m2.counts == m1.counts
               && m2.listening == m1.counts.vals.Keys
  {
    Rejected(m);
    var m1 := Run(m, Rejections(|m.queue|));
    var turns := Turns(|m1.counts.vals.Keys|);
    var m2 := Apply(m1, Reconnect);
    AllKeys(m1.counts);
    TurnsRun(m2);
    assert ([Reconnect] + turns)[1..] == turns;
    assert {} + m1.counts.vals.Keys == m1.counts.vals.Keys;
    RunConcat(m, Rejections(|m.queue|), [Reconnect] + turns);
  }

  // --- The reference count as a reflected walk ---------------------------------------------------

  function Delta(step: Step, r: Room): int {
    if step == Subscribe(r) then 1 else if step == Unsubscribe(r) then -1 else 0
  }

  /** The +1 and -1 calls a run makes on one room. */
  function Walk(steps: seq<Step>, r: Room): seq<int> {
    if steps == [] then []
    else if Delta(steps[0], r) == 0 then Walk(steps[1..], r)
    else [Delta(steps[0], r)] + Walk(steps[1..], r)
  }

  function Sum(xs: seq<int>): int {
    if xs == [] then 0 else xs[0] + Sum(xs[1..])
  }

  function Min(a: int, b: int): int {
    if a < b then a else b
  }

  function Lowest(xs: seq<int>): int {
    if xs == [] then 0 else Min(0, xs[0] + Lowest(xs[1..]))
  }

  /** The walk reflected at zero: last prefix sum less least prefix sum. */
  function Reflected(w: seq<int>): int {
    Sum(w) - Lowest(w)
  }

  /** `Lowest` is the least prefix sum of the walk, the empty prefix included. */
  lemma {:induction false} LowestIsLeastPrefix(xs: seq<int>)
    ensures forall k :: 0 <= k <= |xs| ==> Lowest(xs) <= Sum(xs[..k])
    ensures exists k :: 0 <= k <= |xs| && Lowest(xs) == Sum(xs[..k])
  {
    assert Sum(xs[..0]) == 0;
    if xs != [] {
      LowestIsLeastPrefix(xs[1..]);
      forall k | 0 < k <= |xs| ensures Sum(xs[..k]) == xs[0] + Sum(xs[1..][..k - 1]) {
        assert xs[..k][1..] == xs[1..][..k - 1];
      }
      var j :| 0 <= j <= |xs[1..]| && Lowest(xs[1..]) == Sum(xs[1..][..j]);
      assert Sum(xs[..j + 1]) == xs[0] + Sum(xs[1..][..j]);
    }
  }

  lemma {:induction false} WalkCons(steps: seq<Step>, r: Room)
    requires steps != []
    ensures var d, w, tail := Delta(steps[0], r), Walk(steps, r), Walk(steps[1..], r);
            && Sum(w) == d + Sum(tail)
            && Lowest(w) == if d == 0 then Lowest(tail) else Min(0, d + Lowest(tail))
  {
    var d, tail := Delta(steps[0], r), Walk(steps[1..], r);
    assert ([d] + tail)[1..] == tail;
  }

  lemma LowestNotPositive(xs: seq<int>)
    ensures Lowest(xs) <= 0
  {
  }

  /** The step is the failure of a LISTEN or UNLISTEN for the room. */
  predicate Fails(m: Manager, step: Step, r: Room) {
    step == Serve(false) && m.queue != [] && (m.queue[0] == Listen(r) || m.queue[0] == Unlisten(r))
  }

  /** No LISTEN or UNLISTEN for the room fails in the run; other rooms may fail as they like, sessions may
      be lost and clients replaced. */
  predicate Spared(m: Manager, steps: seq<Step>, r: Room)
    requires WellFormed(m) && Runnable(m, steps)
    decreases |steps|
  {
    steps == [] || (!Fails(m, steps[0], r) && Spared(Apply(m, steps[0]), steps[1..], r))
  }

  lemma SubscribeCounts(m: Manager, r: Room)
    requires WellFormed(m)
    ensures var m' := DoSubscribe(m, r);
            && Count(m', r) == Count(m, r) + 1
            && forall q :: q != r ==> Count(m', q) == Count(m, q)
  {
  }

  lemma UnsubscribeCounts(m: Manager, r: Room)
    requires WellFormed(m)
    ensures var m' := DoUnsubscribe(m, r);
            && Count(m', r) ==
               (if Count(m, r) == 0 then 0 else Count(m, r) - 1)
            && forall q :: q != r ==> Count(m', q) == Count(m, q)
  {
  }

  lemma ServeCount(m: Manager, ok: bool, r: Room)
    requires WellFormed(m) && Enabled(m, Serve(ok)) && !Fails(m, Serve(ok), r)
    ensures Count(Apply(m, Serve(ok)), r) == Count(m, r)
  {
  }

  /** One step's effect on a room's count. */
  lemma {:induction false} CountStep(m: Manager, step: Step, r: Room)
    requires WellFormed(m) && Enabled(m, step) && !Fails(m, step, r)
    ensures Count(Apply(m, step), r) ==
            if Count(m, r) == 0 && Delta(step, r) == -1 then 0 else Count(m, r) + Delta(step, r)
  {
    match step
    case Subscribe(x) => SubscribeCounts(m, x);
    case Unsubscribe(x) => UnsubscribeCounts(m, x);
    case Serve(ok) => ServeCount(m, ok, r);
    case _ => assert Apply(m, step).counts == m.counts;
  }

  /** Where the calls `w` lead from a count of `c`, a decrement at zero doing nothing. */
  function CountFrom(c: nat, w: seq<int>): int {
    Sum(w) - Min(0 - c, Lowest(w))
  }

  /** The count after a run that spares the room and begins at any count. */
  lemma {:induction false} WalkFrom(m: Manager, steps: seq<Step>, r: Room)
    requires WellFormed(m) && Runnable(m, steps) && Spared(m, steps, r)
    ensures Count(Run(m, steps), r) == CountFrom(Count(m, r), Walk(steps, r))
    decreases |steps|
  {
    if steps != [] {
      var m1 := Apply(m, steps[0]);
      CountStep(m, steps[0], r);
      WalkFrom(m1, steps[1..], r);
      WalkCons(steps, r);
      LowestNotPositive(Walk(steps[1..], r));
    }
  }

  /** The count is the walk of the calls reflected at zero: its last prefix sum less its least one. */
  lemma {:induction false} ReflectedWalk(steps: seq<Step>, r: Room)
    requires Runnable(Start(), steps) && Spared(Start(), steps, r)
    ensures Count(Run(Start(), steps), r) == Reflected(Walk(steps, r))
  {
    WalkFrom(Start(), steps, r);
    LowestIsLeastPrefix(Walk(steps, r));
    assert Sum(Walk(steps, r)[..0]) == 0;
  }

  /** The LISTEN and UNLISTEN commands one step issues for a room. */
  function Issued(m: Manager, step: Step, r: Room): seq<Command> {
    if step == Subscribe(r) && Count(m, r) == 0 then [Listen(r)]
    else if step == Unsubscribe(r) && Count(m, r) == 1 then [Unlisten(r)]
    else []
  }

  function IssuedBy(m: Manager, steps: seq<Step>, r: Room): seq<Command>
    requires WellFormed(m) && Runnable(m, steps)
    decreases |steps|
  {
    if steps == [] then [] else Issued(m, steps[0], r) + IssuedBy(Apply(m, steps[0]), steps[1..], r)
  }

  /** The issued commands are those that reach the client's queue. */
  lemma IssuedAreQueued(m: Manager, step: Step, r: Room)
    requires WellFormed(m) && Enabled(m, step) && (step == Subscribe(r) || step == Unsubscribe(r))
    ensures Apply(m, step).queue == m.queue + Issued(m, step, r)
  {
  }

  /** LISTEN, UNLISTEN, LISTEN, ... (or the same from UNLISTEN on). */
  predicate Alternates(cs: seq<Command>, r: Room, listenFirst: bool) {
    forall i :: 0 <= i < |cs| ==> cs[i] == if (i % 2 == 0) == listenFirst then Listen(r) else Unlisten(r)
  }

  lemma {:induction false} AlternatesCons(c: Command, cs: seq<Command>, r: Room, listenFirst: bool)
    requires Alternates(cs, r, !listenFirst) && c == (if listenFirst then Listen(r) else Unlisten(r))
    ensures Alternates([c] + cs, r, listenFirst)
  {
    forall i | 0 < i < |cs| + 1 ensures (i - 1) % 2 == 0 <==> i % 2 != 0 {}
    assert forall i :: 0 < i < |cs| + 1 ==> ([c] + cs)[i] == cs[i - 1];
  }

  lemma {:induction false} CommandsAlternate(m: Manager, steps: seq<Step>, r: Room)
    requires WellFormed(m) && Runnable(m, steps) && Spared(m, steps, r)
    ensures Alternates(IssuedBy(m, steps, r), r, Count(m, r) == 0)
    decreases |steps|
  {
    if steps != [] {
      CountStep(m, steps[0], r);
      var m1 := Apply(m, steps[0]);
      CommandsAlternate(m1, steps[1..], r);
      var rest := IssuedBy(m1, steps[1..], r);
      if Issued(m, steps[0], r) == [] {
        assert IssuedBy(m, steps, r) == rest;
      } else {
        AlternatesCons(Issued(m, steps[0], r)[0], rest, r, Count(m, r) == 0);
      }
    }
  }

  // --- Failed commands ---------------------------------------------------------------------------

  lemma {:induction false} WalkSnoc(w: seq<int>, d: int)
    ensures Sum(w + [d]) == Sum(w) + d && Lowest(w + [d]) == Min(Lowest(w), Sum(w) + d)
  {
    if w == [] {
      assert [] + [d] == [d] && [d][1..] == [];
      assert Sum([]) == 0 && Lowest([]) == 0;
    } else {
      assert (w + [d])[1..] == w[1..] + [d];
      WalkSnoc(w[1..], d);
    }
  }

  lemma {:induction false} ReflectedSnoc(w: seq<int>, d: int)
    requires d == 1 || d == -1
    ensures Reflected(w) >= 0
    ensures Reflected(w + [d]) == if d == -1 && Reflected(w) == 0 then 0 else Reflected(w) + d
  {
    WalkSnoc(w, d);
    LowestIsLeastPrefix(w);
    assert w[..|w|] == w;
  }

  /** The calls on the room that succeed in a run, `w` being those before it: a failing command takes the
      latest call back. */
  function Successful(m: Manager, steps: seq<Step>, r: Room, w: seq<int>): seq<int>
    requires WellFormed(m) && Runnable(m, steps)
    decreases |steps|
  {
    if steps == [] then w
    else
      var w1 := if Fails(m, steps[0], r) && w != [] then w[..|w| - 1]
                else if Delta(steps[0], r) != 0 then w + [Delta(steps[0], r)] else w;
      Successful(Apply(m, steps[0]), steps[1..], r, w1)
  }

  /** No failure on the room is overlapped: when its command fails, no other LISTEN or UNLISTEN for the
      room is queued, and the latest call on the room (`latest`, if it issued a command) issued this one.
      Other rooms may fail as they like, sessions may be lost and clients replaced. */
  predicate NonOverlapping(m: Manager, steps: seq<Step>, r: Room, latest: Option<Command>)
    requires WellFormed(m) && Runnable(m, steps)
    decreases |steps|
  {
    steps == [] ||
    (&& (Fails(m, steps[0], r) ==>
           latest == Some(m.queue[0]) && Listen(r) !in m.queue[1..] && Unlisten(r) !in m.queue[1..])
     && NonOverlapping(Apply(m, steps[0]), steps[1..], r, LatestAfter(m, steps[0], r, latest)))
  }

  function LatestAfter(m: Manager, step: Step, r: Room, latest: Option<Command>): Option<Command> {
    if Fails(m, step, r) then None
    else if Delta(step, r) == 0 then latest
    else if Issued(m, step, r) == [] then None else Some(Issued(m, step, r)[0])
  }

  /** The count is the reflected walk of the successful calls so far, and before the latest call it was
      what that call's rollback restores. */
  ghost predicate SuccessInv(m: Manager, r: Room, w: seq<int>, latest: Option<Command>) {
    && Count(m, r) == Reflected(w)
    && (latest.Some? ==> w != [] && Reflected(w[..|w| - 1]) == if latest.value == Listen(r) then 0 else 1)
    && (latest.Some? ==> latest.value == Listen(r) || latest.value == Unlisten(r))
  }

  lemma {:induction false} SuccessStep(m: Manager, step: Step, r: Room, w: seq<int>, latest: Option<Command>)
    requires WellFormed(m) && Enabled(m, step) && SuccessInv(m, r, w, latest)
    requires Fails(m, step, r) ==> latest == Some(m.queue[0])
    ensures var w1 := if Fails(m, step, r) && w != [] then w[..|w| - 1]
                      else if Delta(step, r) != 0 then w + [Delta(step, r)] else w;
            SuccessInv(Apply(m, step), r, w1, LatestAfter(m, step, r, latest))
  {
    if Fails(m, step, r) {
      assert Count(Apply(m, step), r) == if m.queue[0] == Listen(r) then 0 else 1;
    } else if Delta(step, r) != 0 {
      CountStep(m, step, r);
      ReflectedSnoc(w, Delta(step, r));
      assert (w + [Delta(step, r)])[..|w|] == w;
    } else if step == Serve(false) && m.queue[0].room == r {
      assert m.queue[0].Relisten?;
    } else {
      CountStep(m, step, r);
    }
  }

  lemma {:induction false} SuccessRun(m: Manager, steps: seq<Step>, r: Room, w: seq<int>, latest: Option<Command>)
    requires WellFormed(m) && Runnable(m, steps) && SuccessInv(m, r, w, latest)
    requires NonOverlapping(m, steps, r, latest)
    ensures Count(Run(m, steps), r) == Reflected(Successful(m, steps, r, w))
    decreases |steps|
  {
    if steps != [] {
      SuccessStep(m, steps[0], r, w, latest);
      var w1 := if Fails(m, steps[0], r) && w != [] then w[..|w| - 1]
                else if Delta(steps[0], r) != 0 then w + [Delta(steps[0], r)] else w;
      SuccessRun(Apply(m, steps[0]), steps[1..], r, w1, LatestAfter(m, steps[0], r, latest));
    }
  }

  /** With failures that nothing on their room overlaps, a failed call counts for nothing: the count is
      the reflected walk of the calls that succeeded. */
  lemma {:induction false} FailedCallsCountForNothing(steps: seq<Step>, r: Room)
    requires Runnable(Start(), steps) && NonOverlapping(Start(), steps, r, None)
    ensures Count(Run(Start(), steps), r) == Reflected(Successful(Start(), steps, r, []))
  {
    assert Sum([]) == 0 && Lowest([]) == 0;
    SuccessRun(Start(), steps, r, [], None);
  }

  /** The count the last failure on the room restored, and the calls since; before any failure the run's own
      start, `base` and `calls` being where the run begins. */
  function SinceFailure(m: Manager, steps: seq<Step>, r: Room, base: nat, calls: seq<int>): (nat, seq<int>)
    requires WellFormed(m) && Runnable(m, steps)
    decreases |steps|
  {
    if steps == [] then (base, calls)
    else if Fails(m, steps[0], r) then
      SinceFailure(Apply(m, steps[0]), steps[1..], r, if m.queue[0] == Listen(r) then 0 else 1, [])
    else
      SinceFailure(Apply(m, steps[0]), steps[1..], r, base,
                   if Delta(steps[0], r) == 0 then calls else calls + [Delta(steps[0], r)])
  }

  lemma {:induction false} CountFromSnoc(base: nat, calls: seq<int>, d: int)
    requires d == 1 || d == -1
    ensures CountFrom(base, calls) >= 0
    ensures CountFrom(base, calls + [d]) ==
            if CountFrom(base, calls) == 0 && d == -1 then 0 else CountFrom(base, calls) + d
  {
    WalkSnoc(calls, d);
    LowestIsLeastPrefix(calls);
    assert calls[..|calls|] == calls;
  }

  lemma {:induction false} CountSinceFrom(m: Manager, steps: seq<Step>, r: Room, base: nat, calls: seq<int>)
    requires WellFormed(m) && Runnable(m, steps) && Count(m, r) == CountFrom(base, calls)
    ensures var (b, c) := SinceFailure(m, steps, r, base, calls); Count(Run(m, steps), r) == CountFrom(b, c)
    decreases |steps|
  {
    if steps != [] {
      var m1 := Apply(m, steps[0]);
      if Fails(m, steps[0], r) {
        assert CountFrom(0, []) == 0 && CountFrom(1, []) == 1;
        CountSinceFrom(m1, steps[1..], r, if m.queue[0] == Listen(r) then 0 else 1, []);
      } else {
        CountStep(m, steps[0], r);
        if Delta(steps[0], r) != 0 { CountFromSnoc(base, calls, Delta(steps[0], r)); }
        CountSinceFrom(m1, steps[1..], r, base,
                       if Delta(steps[0], r) == 0 then calls else calls + [Delta(steps[0], r)]);
      }
    }
  }

  /** The count after any run whatsoever, with any number of failing and overlapping commands: the calls since
      the room's last failure, from the count that failure restored; everything before it is forgotten. */
  lemma {:induction false} CountAfterFailures(steps: seq<Step>, r: Room)
    requires Runnable(Start(), steps)
    ensures var (restored, calls) := SinceFailure(Start(), steps, r, 0, []);
            Count(Run(Start(), steps), r) == CountFrom(restored, calls)
  {
    assert CountFrom(0, []) == 0;
    CountSinceFrom(Start(), steps, r, 0, []);
  }

  /** The number of answers the server gives in a run. */
  function Serves(steps: seq<Step>): nat {
    if steps == [] then 0 else (if steps[0].Serve? then 1 else 0) + Serves(steps[1..])
  }

  lemma QueueStep(m: Manager, step: Step)
    requires WellFormed(m) && Enabled(m, step)
    ensures if step.Serve? then m.queue != [] && Apply(m, step).queue == m.queue[1..]
            else m.queue <= Apply(m, step).queue
  {
  }

  /** The client answers its commands first in, first out: after as many answers as `m` had commands before
      its k-th one, that command is at the front. */
  lemma {:induction false} FirstInFirstOut(m: Manager, steps: seq<Step>)
    requires WellFormed(m) && Runnable(m, steps) && Serves(steps) <= |m.queue|
    ensures m.queue[Serves(steps)..] <= Run(m, steps).queue
    decreases |steps|
  {
    if steps != [] {
      var m1, tail := Apply(m, steps[0]), steps[1..];
      QueueStep(m, steps[0]);
      FirstInFirstOut(m1, tail);
      if steps[0].Serve? {
        assert m1.queue[Serves(tail)..] == m.queue[Serves(steps)..];
      } else {
        assert m.queue[Serves(tail)..] <= m1.queue[Serves(tail)..];
      }
    }
  }

  /** A call on the room that issues command `c`, then a run that answers everything queued before `c`: `c`
      is at the front. */
  lemma {:induction false} OwnCommandNext(m: Manager, call: Step, c: Command, between: seq<Step>)
    requires WellFormed(m) && Enabled(m, call) && Apply(m, call).queue == m.queue + [c]
    requires Runnable(Apply(m, call), between) && Serves(between) == |m.queue|
    ensures var q := Run(Apply(m, call), between).queue; q != [] && q[0] == c
  {
    var m1 := Apply(m, call);
    FirstInFirstOut(m1, between);
    assert m1.queue[|m.queue|..] == [c];
    assert [c][0] == Run(m1, between).queue[0];
  }

  /** A Subscribe at count 0 whose own LISTEN fails after the calls `between`. The count becomes 0 whoever
      else subscribed; it is the count of the calls that succeeded exactly when, at the failure, it stood for
      the failed call alone, or for nobody if unsubscribes had used that call up. */
  lemma {:induction false} OverlappedListenFailure(m: Manager, r: Room, between: seq<Step>)
    requires WellFormed(m) && Count(m, r) == 0
    requires Runnable(Apply(m, Subscribe(r)), between) && Spared(Apply(m, Subscribe(r)), between, r)
    requires Serves(between) == |m.queue|
    ensures var m2, w := Run(Apply(m, Subscribe(r)), between), Walk(between, r);
            var successful := CountFrom(Count(m, r), w);
            && Fails(m2, Serve(false), r) && m2.queue[0] == Listen(r)
            && Count(Apply(m2, Serve(false)), r) == 0
            && (Count(Apply(m2, Serve(false)), r) == successful <==>
                Count(m2, r) == if Lowest(w) == 0 then 1 else 0)
  {
    OwnCommandNext(m, Subscribe(r), Listen(r), between);
    WalkFrom(Apply(m, Subscribe(r)), between, r);
    LowestNotPositive(Walk(between, r));
  }

  /** An Unsubscribe at count 1 whose own UNLISTEN fails after the calls `between`. The count becomes 1
      whoever else subscribed; it is the count of the calls that succeeded exactly when, at the failure, it
      stood for nobody, or for one if unsubscribes had already taken the failed call's place. */
  lemma {:induction false} OverlappedUnlistenFailure(m: Manager, r: Room, between: seq<Step>)
    requires WellFormed(m) && Count(m, r) == 1
    requires Runnable(Apply(m, Unsubscribe(r)), between) && Spared(Apply(m, Unsubscribe(r)), between, r)
    requires Serves(between) == |m.queue|
    ensures var m2, w := Run(Apply(m, Unsubscribe(r)), between), Walk(between, r);
            var successful := CountFrom(Count(m, r), w);
            && Fails(m2, Serve(false), r) && m2.queue[0] == Unlisten(r)
            && Count(Apply(m2, Serve(false)), r) == 1
            && (Count(Apply(m2, Serve(false)), r) == successful <==>
                Count(m2, r) == if Lowest(w) < 0 then 1 else 0)
  {
    OwnCommandNext(m, Unsubscribe(r), Unlisten(r), between);
    WalkFrom(Apply(m, Unsubscribe(r)), between, r);
    LowestNotPositive(Walk(between, r));
  }

  lemma {:induction false} RunCons(m: Manager, step: Step, rest: seq<Step>)
    requires WellFormed(m) && Enabled(m, step) && Runnable(Apply(m, step), rest)
    ensures Runnable(m, [step] + rest) && Run(m, [step] + rest) == Run(Apply(m, step), rest)
  {
    assert ([step] + rest)[1..] == rest;
  }

  /** The failing family of LISTEN is not empty: the second of two overlapping subscribers is forgotten. */
  lemma {:induction false} ForgottenSubscriber(r: Room)
    ensures var steps := [Subscribe(r), Subscribe(r), Serve(false)];
            && Runnable(Start(), steps)
            && Count(Run(Start(), steps), r) == 0
            && CountFrom(0, Walk([Subscribe(r)], r)) == 1
  {
    var a := Apply(Start(), Subscribe(r));
    var b := Apply(a, Subscribe(r));
    RunCons(b, Serve(false), []);
    RunCons(a, Subscribe(r), [Serve(false)]);
    RunCons(Start(), Subscribe(r), [Subscribe(r)] + [Serve(false)]);
    assert [Subscribe(r)] + ([Subscribe(r)] + [Serve(false)]) == [Subscribe(r), Subscribe(r), Serve(false)];
    WalkCons([Subscribe(r)], r);
  }

  /** Nor is that of UNLISTEN: after it fails the count is 1, although the caller that could not leave and
      two later subscribers are all still there. */
  lemma {:induction false} ForgottenAfterUnlisten(r: Room)
    ensures var steps := [Subscribe(r), Serve(true), Unsubscribe(r), Subscribe(r), Subscribe(r), Serve(false)];
            && Runnable(Start(), steps)
            && Count(Run(Start(), steps), r) == 1
            && CountFrom(1, Walk([Subscribe(r), Subscribe(r)], r)) == 3
  {
    var a := Apply(Start(), Subscribe(r));
    var b := Apply(a, Serve(true));
    assert a.queue == [Listen(r)] && b.queue == [] && Count(b, r) == 1;
    var s3 := [Subscribe(r), Subscribe(r), Serve(false)];
    UnlistenFailsLast(b, r);
    RunCons(b, Unsubscribe(r), s3);
    RunCons(a, Serve(true), [Unsubscribe(r)] + s3);
    RunCons(Start(), Subscribe(r), [Serve(true)] + ([Unsubscribe(r)] + s3));
    assert [Subscribe(r)] + ([Serve(true)] + ([Unsubscribe(r)] + s3))
        == [Subscribe(r), Serve(true), Unsubscribe(r), Subscribe(r), Subscribe(r), Serve(false)];
    WalkCons([Subscribe(r), Subscribe(r)], r);
    WalkCons([Subscribe(r)], r);
  }

  lemma {:induction false} UnlistenFailsLast(m: Manager, r: Room)
    requires WellFormed(m) && Count(m, r) == 1 && m.queue == []
    ensures var m1, steps := Apply(m, Unsubscribe(r)), [Subscribe(r), Subscribe(r), Serve(false)];
            Runnable(m1, steps) && Count(Run(m1, steps), r) == 1
  {
    var m1 := Apply(m, Unsubscribe(r));
    var m2 := Apply(m1, Subscribe(r));
    var m3 := Apply(m2, Subscribe(r));
    assert m3.queue[0] == Unlisten(r);
    RunCons(m3, Serve(false), []);
    RunCons(m2, Subscribe(r), [Serve(false)]);
    RunCons(m1, Subscribe(r), [Subscribe(r)] + [Serve(false)]);
    assert [Subscribe(r)] + ([Subscribe(r)] + [Serve(false)]) == [Subscribe(r), Subscribe(r), Serve(false)];
  }

  /** After a failed LISTEN the safety invariant still holds exactly when no later LISTEN for the room
      is queued last and the server was not already listening. */
  lemma {:induction false} ListenFailureSafety(m: Manager, r: Room)
    requires WellFormed(m) && Listened(m) && m.queue != [] && m.queue[0] == Listen(r)
    ensures Listened(Apply(m, Serve(false))) <==>
            match LastFor(m.queue[1..], r) case None => r !in m.listening case Some(c) => c.Unlisten?
  {
    var m' := Apply(m, Serve(false));
    ReplayLast(m'.queue, m.listening, r);
    forall x | x != r ensures Covered(m', x) {
      ReplayLast(m'.queue, m.listening, x);
      ReplayLast(m'.queue, Obey(m.listening, Listen(r)), x);
      assert Covered(m, x);
      if Ahead(m, x) {
        var i :| m.loop.pos <= i < |m.counts.slots| && m.counts.slots[i] == EcmaMap.Key(x);
        assert m'.counts.slots[i] == EcmaMap.Key(x);
      }
    }
    assert Covered(m', r) <==> r !in Drained(m');
  }

  /** After a failed UNLISTEN the invariant still holds exactly when the room stays listened to, by the
      server or by a queued LISTEN, or a re-listening loop is under way to pick the restored entry up. */
  lemma {:induction false} UnlistenFailureSafety(m: Manager, r: Room)
    requires WellFormed(m) && Listened(m) && m.queue != [] && m.queue[0] == Unlisten(r)
    ensures Listened(Apply(m, Serve(false))) <==>
            (!m.loop.Idle? ||
             match LastFor(m.queue[1..], r) case None => r in m.listening case Some(c) => !c.Unlisten?)
  {
    var m' := Apply(m, Serve(false));
    ReplayLast(m'.queue, m.listening, r);
    ReplayLast(m'.queue, Obey(m.listening, Unlisten(r)), r);
    assert Covered(m, r);
    forall x | x != r ensures Covered(m', x) {
      ReplayLast(m'.queue, m.listening, x);
      ReplayLast(m'.queue, Obey(m.listening, Unlisten(r)), x);
      assert Covered(m, x);
      assert Ahead(m, x) ==> Ahead(m', x);
    }
    if !m.loop.Idle? && r !in m.counts.vals {
      assert m'.counts.slots[|m.counts.slots|] == EcmaMap.Key(r);
    }
    assert Ahead(m, r) ==> Ahead(m', r);
    assert Covered(m', r) <==> r in Drained(m') || Ahead(m', r);
  }

  // --- Active listening --------------------------------------------------------------------------

  /** A second subscriber issues no command and so resolves at once, while the first one's LISTEN is
      still in flight: it may go on although the server does not listen yet. */
  lemma {:induction false} SecondSubscriberDoesNotWait(m: Manager, r: Room)
    requires WellFormed(m) && Count(m, r) == 0 && r !in m.listening
    ensures var m1 := Apply(m, Subscribe(r));
            && Issued(m1, Subscribe(r), r) == []
            && Count(Apply(m1, Subscribe(r)), r) == 2
            && r !in Apply(m1, Subscribe(r)).listening
  {
    assert Count(Apply(m, Subscribe(r)), r) == 1;
  }

  predicate Counted(m: Manager, steps: seq<Step>, r: Room)
    requires WellFormed(m) && Runnable(m, steps)
    decreases |steps|
  {
    0 < Count(m, r) && (steps == [] || Counted(Apply(m, steps[0]), steps[1..], r))
  }

  /** The server listens to the room and no UNLISTEN for it is in flight. */
  predicate Active(m: Manager, r: Room) {
    r in m.listening && Unlisten(r) !in m.queue
  }

  lemma {:induction false} CountedListensStep(m: Manager, step: Step, r: Room)
    requires WellFormed(m) && Enabled(m, step) && !step.SessionLost? && !step.Reconnect?
    requires Active(m, r) && 0 < Count(Apply(m, step), r)
    ensures Active(Apply(m, step), r)
  {
    var m' := Apply(m, step);
    if step.Serve? {
      assert m.queue[0] in m.queue;
      assert forall c :: c in m'.queue ==> c in m.queue;
    } else {
      assert m'.queue == m.queue || (exists c :: m'.queue == m.queue + [c] && c != Unlisten(r));
    }
  }

  /** While a room's count stays positive, whichever commands fail, and neither the session is lost nor the
      client replaced, a room that is listened to with no UNLISTEN in flight stays so. */
  lemma {:induction false} CountedStaysListened(m: Manager, steps: seq<Step>, r: Room)
    requires WellFormed(m) && Runnable(m, steps) && SessionLost !in steps && Reconnect !in steps
    requires Counted(m, steps, r) && Active(m, r)
    ensures Active(Run(m, steps), r)
    decreases |steps|
  {
    if steps != [] {
      assert steps[0] in steps;
      CountedListensStep(m, steps[0], r);
      assert forall i :: 0 <= i < |steps[1..]| ==> steps[1..][i] == steps[i + 1];
      CountedStaysListened(Apply(m, steps[0]), steps[1..], r);
    }
  }
}
