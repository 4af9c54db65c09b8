/** Which rooms' messages a socket can be handed: those it has sent a join frame for on that node, and no
    others, whoever it belongs to. */
module Isolation {
  import opened ChatTypes
  import opened Pipeline
  import Batching
  import Registry

  /** Nothing of the room is handed to the socket or scheduled for it, and it is not registered. */
  ghost predicate Apart(node: Node, s: Socket, r: Room) {
    && s !in Registry.Sockets(node.reg, r)
    && InRoom(Batching.Scheduled(node.fan.immediates, s), r) == []
    && InRoom(Batching.Handed(node.fan, s), r) == []
  }

  ghost predicate Isolated(sys: System, n: NodeId, s: Socket, r: Room) {
    n in sys.nodes ==> Apart(sys.nodes[n], s, r)
  }

  lemma {:induction false} ImmediateApart(node: Node, failed: set<Socket>, s: Socket, r: Room)
    requires node.fan.immediates != [] && Apart(node, s, r)
    ensures Apart(ImmediateNode(node, failed), s, r)
  {
    var job := node.fan.immediates[0];
    var share := if s in job.sockets then job.batch else [];
    Batching.ScheduledFirst(node.fan.immediates, s);
    InRoomConcat(share, Batching.Scheduled(node.fan.immediates[1..], s), r);
    assert InRoom(share, r) == [];
    Batching.ImmediateHands(node.fan, failed, s);
    InRoomConcat(Batching.Handed(node.fan, s), if s in job.sockets && s !in failed then job.batch else [], r);
  }

  lemma {:induction false} NodeApart(node: Node, step: NodeStep, s: Socket, r: Room)
    requires NodeOk(node) && NodeEnabled(node, step) && Apart(node, s, r) && step != Register(s, r)
    ensures Apart(ApplyNode(node, step), s, r)
  {
    match step
    case FlushTimer(open) => Batching.FlushSchedules(node.fan, node.reg.roomSockets.vals, open, s, r);
    case Immediate(failed) => ImmediateApart(node, failed, s, r);
    case Leave(leaver, q) => LeaveExact(node.reg, q, leaver, r);
    case Close(closed) => Registry.CleanupExact(node.reg, closed);
    case _ =>
  }

  lemma OtherSteps(sys: System, step: Step, n: NodeId)
    requires SystemOk(sys) && Enabled(sys, step) && n in sys.nodes && !(step.OnNode? && step.node == n)
    ensures n in Apply(sys, step).nodes
    ensures Apply(sys, step).nodes[n].reg == sys.nodes[n].reg && Apply(sys, step).nodes[n].fan == sys.nodes[n].fan
  {
  }

  lemma {:induction false} StepIsolated(sys: System, step: Step, n: NodeId, s: Socket, r: Room)
    requires SystemOk(sys) && Enabled(sys, step) && Isolated(sys, n, s, r) && step != OnNode(n, Register(s, r))
    ensures Isolated(Apply(sys, step), n, s, r)
  {
    if step.OnNode? && step.node == n {
      NodeApart(sys.nodes[n], step.nodeStep, s, r);
    } else if n in sys.nodes {
      OtherSteps(sys, step, n);
    }
  }

  lemma {:induction false} RunIsolated(sys: System, steps: seq<Step>, n: NodeId, s: Socket, r: Room)
    requires SystemOk(sys) && Runnable(sys, steps) && Isolated(sys, n, s, r)
    requires OnNode(n, Register(s, r)) !in steps
    ensures Isolated(Run(sys, steps), n, s, r)
    decreases |steps|
  {
    if steps != [] {
      assert steps[0] in steps;
      RunFirst(sys, steps);
      StepIsolated(sys, steps[0], n, s, r);
      assert forall step :: step in steps[1..] ==> step in steps;
      RunIsolated(Apply(sys, steps[0]), steps[1..], n, s, r);
    }
  }

  /** Room isolation. In every run a socket is registered for, scheduled for or handed messages of only those
      rooms it has sent a join frame for on that node. */
  lemma {:induction false} OnlyJoinedRooms(steps: seq<Step>, n: NodeId, s: Socket, r: Room)
    requires Runnable(Initial(), steps) && n in Run(Initial(), steps).nodes
    requires OnNode(n, Register(s, r)) !in steps
    ensures Apart(Run(Initial(), steps).nodes[n], s, r)
  {
    RunIsolated(Initial(), steps, n, s, r);
  }

  /** A message reaches a socket only after a join frame of that socket for the message's room. */
  lemma {:induction false} HandedAfterJoin(steps: seq<Step>, n: NodeId, s: Socket, m: Message)
    requires Runnable(Initial(), steps) && n in Run(Initial(), steps).nodes
    requires m in Batching.Handed(Run(Initial(), steps).nodes[n].fan, s)
    ensures OnNode(n, Register(s, m.room)) in steps
  {
    var handed := Batching.Handed(Run(Initial(), steps).nodes[n].fan, s);
    InRoomMembers(handed, m.room);
    assert m in InRoom(handed, m.room);
    if OnNode(n, Register(s, m.room)) !in steps {
      OnlyJoinedRooms(steps, n, s, m.room);
    }
  }

  /** If whoever sends a join frame is a member of the room, so is every receiver. Nothing else in the run
      matters: membership is not looked at again after the join. */
  lemma {:induction false} MembersOnly(steps: seq<Step>, n: NodeId, s: Socket, members: set<(Socket, Room)>)
    requires Runnable(Initial(), steps) && n in Run(Initial(), steps).nodes
    requires forall r :: OnNode(n, Register(s, r)) in steps ==> (s, r) in members
    ensures forall m :: m in Batching.Handed(Run(Initial(), steps).nodes[n].fan, s) ==> (s, m.room) in members
  {
    forall m | m in Batching.Handed(Run(Initial(), steps).nodes[n].fan, s) ensures (s, m.room) in members {
      HandedAfterJoin(steps, n, s, m);
    }
  }

  // --- Exactly who is served -------------------------------------------------------------------------

  /** The step ends the socket's registration for the room. */
  predicate Ends(step: Step, n: NodeId, s: Socket, r: Room) {
    step == OnNode(n, Leave(s, r)) || step == OnNode(n, Close(s))
  }

  /** The socket has sent a join frame for the room and neither a leave frame nor a close has followed. */
  predicate JoinStands(steps: seq<Step>, n: NodeId, s: Socket, r: Room) {
    exists i :: 0 <= i < |steps| && StandsFrom(steps, i, n, s, r)
  }

  predicate StandsFrom(steps: seq<Step>, i: nat, n: NodeId, s: Socket, r: Room)
    requires i < |steps|
  {
    steps[i] == OnNode(n, Register(s, r)) && NoEnd(steps[i + 1..], n, s, r)
  }

  predicate NoEnd(steps: seq<Step>, n: NodeId, s: Socket, r: Room) {
    forall i :: 0 <= i < |steps| ==> !Ends(steps[i], n, s, r)
  }

  /** The sockets registered for the room on the node. */
  ghost function SocketsOf(sys: System, n: NodeId, r: Room): set<Socket> {
    if n in sys.nodes then Registry.Sockets(sys.nodes[n].reg, r) else {}
  }

  ghost predicate Registered(sys: System, n: NodeId, s: Socket, r: Room) {
    s in SocketsOf(sys, n, r)
  }

  function SocketsAfter(step: NodeStep, sockets: set<Socket>, r: Room): set<Socket> {
    match step
    case Register(s, q) => if q == r then sockets + {s} else sockets
    case Leave(s, q) => if q == r then sockets - {s} else sockets
    case Close(s) => sockets - {s}
    case _ => sockets
  }

  lemma {:induction false} NodeSockets(node: Node, step: NodeStep, r: Room)
    requires NodeOk(node) && NodeEnabled(node, step)
    ensures Registry.Sockets(ApplyNode(node, step).reg, r) == SocketsAfter(step, Registry.Sockets(node.reg, r), r)
  {
    match step
    case Close(closed) => Registry.CleanupExact(node.reg, closed);
    case Leave(leaver, q) => LeaveExact(node.reg, q, leaver, r);
    case _ =>
  }

  lemma LeaveExact(g: Registry.Registry, q: Room, leaver: Socket, r: Room)
    requires Registry.WellFormed(g)
    ensures Registry.Sockets(Registry.RemoveFromRoom(g, q, leaver), r) ==
            if q == r then Registry.Sockets(g, r) - {leaver} else Registry.Sockets(g, r)
  {
  }

  lemma {:induction false} StepSockets(sys: System, step: Step, n: NodeId, r: Room)
    requires SystemOk(sys) && Enabled(sys, step)
    ensures SocketsOf(Apply(sys, step), n, r) ==
            if step.OnNode? && step.node == n then SocketsAfter(step.nodeStep, SocketsOf(sys, n, r), r)
            else SocketsOf(sys, n, r)
  {
    if step.OnNode? && step.node == n {
      NodeSockets(sys.nodes[n], step.nodeStep, r);
    } else if n in sys.nodes {
      OtherSteps(sys, step, n);
    } else {
      Booted(sys, step, n, Socket(0), r);
    }
  }

  lemma MemberAfter(step: Step, n: NodeId, s: Socket, r: Room, before: set<Socket>, after: set<Socket>)
    requires after == if step.OnNode? && step.node == n then SocketsAfter(step.nodeStep, before, r) else before
    ensures s in after <==> step == OnNode(n, Register(s, r)) || (s in before && !Ends(step, n, s, r))
  {
  }

  lemma {:induction false} StepRegisters(sys: System, step: Step, n: NodeId, s: Socket, r: Room)
    requires SystemOk(sys) && Enabled(sys, step)
    ensures Registered(Apply(sys, step), n, s, r) <==>
            step == OnNode(n, Register(s, r)) || (Registered(sys, n, s, r) && !Ends(step, n, s, r))
  {
    StepSockets(sys, step, n, r);
    MemberAfter(step, n, s, r, SocketsOf(sys, n, r), SocketsOf(Apply(sys, step), n, r));
  }

  /** A node that is not there yet has nobody registered and has served nobody, just after its start either. */
  lemma {:induction false} Booted(sys: System, step: Step, n: NodeId, s: Socket, r: Room)
    requires SystemOk(sys) && Enabled(sys, step) && n !in sys.nodes
    ensures SocketsOf(Apply(sys, step), n, r) == {} && Served(Apply(sys, step), n, s, r) == []
  {
  }

  lemma {:induction false} NoEndFirst(steps: seq<Step>, n: NodeId, s: Socket, r: Room)
    requires steps != []
    ensures NoEnd(steps, n, s, r) <==> !Ends(steps[0], n, s, r) && NoEnd(steps[1..], n, s, r)
  {
    if !Ends(steps[0], n, s, r) && NoEnd(steps[1..], n, s, r) {
      assert forall i :: 0 < i < |steps| ==> steps[i] == steps[1..][i - 1];
    }
    assert forall i :: 0 <= i < |steps[1..]| ==> steps[1..][i] == steps[i + 1];
  }

  lemma StandsLater(steps: seq<Step>, i: nat, n: NodeId, s: Socket, r: Room)
    requires 0 < i < |steps|
    ensures StandsFrom(steps, i, n, s, r) <==> StandsFrom(steps[1..], i - 1, n, s, r)
  {
    assert steps[1..][i..] == steps[i + 1..];
  }

  lemma {:induction false} StandsFirst(steps: seq<Step>, n: NodeId, s: Socket, r: Room)
    requires steps != []
    ensures JoinStands(steps, n, s, r) <==>
            JoinStands(steps[1..], n, s, r) || (steps[0] == OnNode(n, Register(s, r)) && NoEnd(steps[1..], n, s, r))
  {
    if JoinStands(steps, n, s, r) {
      var i :| 0 <= i < |steps| && StandsFrom(steps, i, n, s, r);
      if i > 0 {
        StandsLater(steps, i, n, s, r);
      }
    }
    if JoinStands(steps[1..], n, s, r) {
      var i :| 0 <= i < |steps[1..]| && StandsFrom(steps[1..], i, n, s, r);
      StandsLater(steps, i + 1, n, s, r);
    }
    if steps[0] == OnNode(n, Register(s, r)) && NoEnd(steps[1..], n, s, r) {
      assert StandsFrom(steps, 0, n, s, r);
    }
  }

  lemma {:induction false} RunRegisters(sys: System, steps: seq<Step>, n: NodeId, s: Socket, r: Room)
    requires SystemOk(sys) && Runnable(sys, steps)
    ensures Registered(Run(sys, steps), n, s, r) <==>
            JoinStands(steps, n, s, r) || (Registered(sys, n, s, r) && NoEnd(steps, n, s, r))
    decreases |steps|
  {
    if steps != [] {
      RunFirst(sys, steps);
      StepRegisters(sys, steps[0], n, s, r);
      RunRegisters(Apply(sys, steps[0]), steps[1..], n, s, r);
      StandsFirst(steps, n, s, r);
      NoEndFirst(steps, n, s, r);
    }
  }

  /** Exactly who is registered. In every run a socket is registered for a room exactly when the last of its
      join frames, leave frames and closes for it is a join frame: whether the join was refused makes no
      difference. */
  lemma {:induction false} RegisteredIff(steps: seq<Step>, n: NodeId, s: Socket, r: Room)
    requires Runnable(Initial(), steps)
    ensures Registered(Run(Initial(), steps), n, s, r) <==> JoinStands(steps, n, s, r)
  {
    RunRegisters(Initial(), steps, n, s, r);
  }

  /** What a step schedules for the socket of the room. */
  ghost function Share(sys: System, step: Step, n: NodeId, s: Socket, r: Room): seq<Message> {
    if && step.OnNode? && step.node == n && step.nodeStep.FlushTimer?
       && s in step.nodeStep.open && Registered(sys, n, s, r)
    then Batching.Buffer(sys.nodes[n].fan, r) else []
  }

  /** The batches of the room flushed in the run while the socket was registered and open. */
  ghost function Shares(sys: System, steps: seq<Step>, n: NodeId, s: Socket, r: Room): seq<Message>
    requires SystemOk(sys) && Runnable(sys, steps)
    decreases |steps|
  {
    if steps == [] then []
    else ApplyOk(sys, steps[0]);
         Share(sys, steps[0], n, s, r) + Shares(Apply(sys, steps[0]), steps[1..], n, s, r)
  }

  /** No send to the socket throws in the run. */
  predicate SendsSucceed(steps: seq<Step>, n: NodeId, s: Socket) {
    forall step :: step in steps ==>
      (step.OnNode? && step.node == n && step.nodeStep.Immediate? ==> s !in step.nodeStep.failed)
  }

  /** Handed to the socket, then scheduled for it. */
  function NodeServed(node: Node, s: Socket, r: Room): seq<Message> {
    InRoom(Batching.Handed(node.fan, s), r) + InRoom(Batching.Scheduled(node.fan.immediates, s), r)
  }

  ghost function Served(sys: System, n: NodeId, s: Socket, r: Room): seq<Message> {
    if n in sys.nodes then NodeServed(sys.nodes[n], s, r) else []
  }

  lemma {:induction false} FlushServes(node: Node, open: set<Socket>, s: Socket, r: Room)
    requires NodeOk(node)
    ensures NodeServed(FlushNode(node, open), s, r) ==
            NodeServed(node, s, r) +
            if s in Registry.Sockets(node.reg, r) && s in open then Batching.Buffer(node.fan, r) else []
  {
    Batching.FlushSchedules(node.fan, node.reg.roomSockets.vals, open, s, r);
    Assoc(InRoom(Batching.Handed(node.fan, s), r), InRoom(Batching.Scheduled(node.fan.immediates, s), r),
          if s in Registry.Sockets(node.reg, r) && s in open then Batching.Buffer(node.fan, r) else []);
  }

  lemma {:induction false} ImmediateServes(node: Node, failed: set<Socket>, s: Socket, r: Room)
    requires node.fan.immediates != [] && s !in failed
    ensures NodeServed(ImmediateNode(node, failed), s, r) == NodeServed(node, s, r)
  {
    var job := node.fan.immediates[0];
    var share := if s in job.sockets then job.batch else [];
    Batching.ScheduledFirst(node.fan.immediates, s);
    InRoomConcat(share, Batching.Scheduled(node.fan.immediates[1..], s), r);
    Batching.ImmediateHands(node.fan, failed, s);
    InRoomConcat(Batching.Handed(node.fan, s), share, r);
    Assoc(InRoom(Batching.Handed(node.fan, s), r), InRoom(share, r),
          InRoom(Batching.Scheduled(node.fan.immediates[1..], s), r));
  }

  lemma {:induction false} NodeServes(node: Node, step: NodeStep, s: Socket, r: Room)
    requires NodeOk(node) && NodeEnabled(node, step) && (step.Immediate? ==> s !in step.failed)
    ensures var share := if step.FlushTimer? && s in step.open && s in Registry.Sockets(node.reg, r)
                         then Batching.Buffer(node.fan, r) else [];
            NodeServed(ApplyNode(node, step), s, r) == NodeServed(node, s, r) + share
  {
    var served := NodeServed(node, s, r);
    assert served + [] == served;
    match step
    case FlushTimer(open) => FlushServes(node, open, s, r);
    case Immediate(failed) => ImmediateServes(node, failed, s, r);
    case _ =>
  }

  lemma {:induction false} StepServes(sys: System, step: Step, n: NodeId, s: Socket, r: Room)
    requires SystemOk(sys) && Enabled(sys, step) && SendsSucceed([step], n, s)
    ensures Served(Apply(sys, step), n, s, r) == Served(sys, n, s, r) + Share(sys, step, n, s, r)
  {
    var served := Served(sys, n, s, r);
    assert served + [] == served;
    assert step in [step];
    if step.OnNode? && step.node == n {
      NodeServes(sys.nodes[n], step.nodeStep, s, r);
    } else if n in sys.nodes {
      OtherSteps(sys, step, n);
    } else {
      Booted(sys, step, n, s, r);
    }
  }

  lemma {:induction false} RunServes(sys: System, steps: seq<Step>, n: NodeId, s: Socket, r: Room)
    requires SystemOk(sys) && Runnable(sys, steps) && SendsSucceed(steps, n, s)
    ensures Served(Run(sys, steps), n, s, r) == Served(sys, n, s, r) + Shares(sys, steps, n, s, r)
    decreases |steps|
  {
    if steps == [] {
      assert Served(sys, n, s, r) + [] == Served(sys, n, s, r);
    } else {
      RunFirst(sys, steps);
      assert steps[0] in steps;
      StepServes(sys, steps[0], n, s, r);
      assert forall step :: step in steps[1..] ==> step in steps;
      RunServes(Apply(sys, steps[0]), steps[1..], n, s, r);
      Assoc(Served(sys, n, s, r), Share(sys, steps[0], n, s, r), Shares(Apply(sys, steps[0]), steps[1..], n, s, r));
    }
  }

  /** Exactly what a socket is served, member or not: in every run in which no send to it throws, what it has
      been handed of a room, and then what is scheduled for it, is the room's batches that were flushed while it
      was registered and open. `RegisteredIff` says when it was registered. */
  lemma {:induction false} ServedExactly(steps: seq<Step>, n: NodeId, s: Socket, r: Room)
    requires Runnable(Initial(), steps) && SendsSucceed(steps, n, s)
    ensures Served(Run(Initial(), steps), n, s, r) == Shares(Initial(), steps, n, s, r)
  {
    RunServes(Initial(), steps, n, s, r);
    assert [] + Shares(Initial(), steps, n, s, r) == Shares(Initial(), steps, n, s, r);
  }
}
