/** The whole message path: database log, NOTIFY to every node's listening session, batch buffer,
    immediate queue, socket. Any number of transactions, nodes, rooms and sockets interleave. */
module Pipeline {
  import opened ChatTypes
  import Sequencer
  import ListenManager
  import Batching
  import Registry

  datatype NodeId = NodeId(id: nat)

  datatype Node = Node(
    pg: ListenManager.Manager,
    inbound: seq<Message>,      // notifications sent by the server session, not yet dispatched
    fan: Batching.FanOut,
    reg: Registry.Registry)

  datatype System = System(db: Sequencer.Db, nodes: map<NodeId, Node>)

  datatype NodeStep =
    | Listen(step: ListenManager.Step)  // subscribe, unsubscribe, answers, re-listening, session loss, reconnect
    | LoseTail(kept: nat)               // notifications still in transit are lost with their session
    | Dispatch                          // the client emits its oldest notification
    | FlushTimer(open: set<Socket>)     // sockets open and under the send threshold at the flush
    | Immediate(failed: set<Socket>)    // sockets whose send throws
    | Destroy
    | Connect(socket: Socket, user: User)
    | Register(socket: Socket, room: Room)   // a join's first part; its subscribe is a later Listen step
    | Leave(socket: Socket, room: Room)      // likewise, before the leave's own unsubscribe
    | Close(socket: Socket)

  datatype Step =
    | Boot(node: NodeId)
    | OnDb(dbStep: Sequencer.Step)
    | OnNode(node: NodeId, nodeStep: NodeStep)

  ghost function Initial(): (s: System)
    ensures SystemOk(s)
  {
    System(Sequencer.EMPTY_DB, map[])
  }

  function BootNode(): Node {
    Node(ListenManager.Start(), [], Batching.Start(), Registry.Start())
  }

  ghost predicate NodeOk(n: Node) {
    && ListenManager.WellFormed(n.pg) && Batching.WellFormed(n.fan) && Registry.WellFormed(n.reg)
    && Batching.Unmixed(n.fan.buffers.vals)
  }

  ghost predicate SystemOk(s: System) {
    forall n :: n in s.nodes ==> NodeOk(s.nodes[n])
  }

  predicate NodeEnabled(n: Node, step: NodeStep) {
    match step
    case Listen(ls) => ListenManager.Enabled(n.pg, ls)
    case Dispatch => n.inbound != []
    case FlushTimer(open) => n.fan.timerArmed
    case Immediate(_) => n.fan.immediates != []
    case Connect(s, _) => s !in n.reg.userOf
    case _ => true
  }

  function DispatchNode(n: Node): Node
    requires Batching.WellFormed(n.fan) && n.inbound != []
  {
    n.(inbound := n.inbound[1..], fan := Batching.DoEnqueue(n.fan, n.inbound[0].room, n.inbound[0]))
  }

  function FlushNode(n: Node, open: set<Socket>): Node {
    n.(fan := Batching.DoFlush(n.fan, n.reg.roomSockets.vals, open))
  }

  function ImmediateNode(n: Node, failed: set<Socket>): Node
    requires n.fan.immediates != []
  {
    n.(fan := Batching.DoImmediate(n.fan, failed))
  }

  function ApplyNode(n: Node, step: NodeStep): Node
    requires NodeOk(n) && NodeEnabled(n, step)
  {
    match step
    case Listen(ls) =>
      // A replaced client has no handlers left, so what it had not emitted is lost.
      n.(pg := ListenManager.Apply(n.pg, ls), inbound := if ls.Reconnect? then [] else n.inbound)
    case LoseTail(kept) => n.(inbound := if kept < |n.inbound| then n.inbound[..kept] else n.inbound)
    case Dispatch => DispatchNode(n)
    case FlushTimer(open) => FlushNode(n, open)
    case Immediate(failed) => ImmediateNode(n, failed)
    case Destroy => n.(fan := n.fan.(timerArmed := false))
    case Connect(s, u) => n.(reg := Registry.Connect(n.reg, s, u))
    case Register(s, r) => n.(reg := Registry.AddToRoom(n.reg, r, s))
    case Leave(s, r) =>
      n.(reg := Registry.RemoveFromRoom(n.reg, r, s),
         pg := if Registry.Sockets(n.reg, r) == {s} then ListenManager.DoUnsubscribe(n.pg, r) else n.pg)
    case Close(s) =>
      n.(reg := Registry.Cleanup(n.reg, s),
         pg := Registry.UnsubscribeAll(n.pg, Registry.CleanupCalls(n.reg, s)))
  }

  /** The notifications a session receives of a committed transaction. */
  function Heard(notes: seq<Message>, listening: set<Room>): seq<Message> {
    if notes == [] then []
    else (if notes[0].room in listening then [notes[0]] else []) + Heard(notes[1..], listening)
  }

  function Notify(nodes: map<NodeId, Node>, notes: seq<Message>): map<NodeId, Node> {
    map n | n in nodes :: nodes[n].(inbound := nodes[n].inbound + Heard(notes, nodes[n].pg.listening))
  }

  ghost predicate Enabled(s: System, step: Step) {
    match step
    case Boot(n) => n !in s.nodes
    case OnDb(ds) => Sequencer.Enabled(s.db, ds)
    case OnNode(n, ns) => n in s.nodes && NodeEnabled(s.nodes[n], ns)
  }

  ghost function Apply(s: System, step: Step): System
    requires SystemOk(s) && Enabled(s, step)
  {
    match step
    case Boot(n) => s.(nodes := s.nodes[n := BootNode()])
    case OnDb(ds) =>
      System(Sequencer.Apply(s.db, ds),
             if ds.Commit? then Notify(s.nodes, Sequencer.TxOf(s.db, ds.tx).notes) else s.nodes)
    case OnNode(n, ns) => s.(nodes := s.nodes[n := ApplyNode(s.nodes[n], ns)])
  }

  lemma {:induction false} ApplyNodeOk(n: Node, step: NodeStep)
    requires NodeOk(n) && NodeEnabled(n, step)
    ensures NodeOk(ApplyNode(n, step))
  {
    if step.Close? {
      Registry.CleanupWellFormed(n.reg, step.socket);
    } else if step.Leave? {
      Registry.EmptiedIff(Registry.Sockets(n.reg, step.room) + {step.socket}, step.socket);
    }
  }

  lemma {:induction false} ApplyOk(s: System, step: Step)
    requires SystemOk(s) && Enabled(s, step)
    ensures SystemOk(Apply(s, step))
  {
    if step.OnNode? {
      ApplyNodeOk(s.nodes[step.node], step.nodeStep);
    } else if step.Boot? {
      assert NodeOk(BootNode());
    }
  }

  ghost predicate Runnable(s: System, steps: seq<Step>)
    requires SystemOk(s)
    decreases |steps|
  {
    steps == [] ||
    (Enabled(s, steps[0]) && (ApplyOk(s, steps[0]); Runnable(Apply(s, steps[0]), steps[1..])))
  }

  ghost function Run(s: System, steps: seq<Step>): (s': System)
    requires SystemOk(s) && Runnable(s, steps)
    ensures SystemOk(s')
    decreases |steps|
  {
    if steps == [] then s else (ApplyOk(s, steps[0]); Run(Apply(s, steps[0]), steps[1..]))
  }

  lemma {:induction false} RunCons(sys: System, step: Step, rest: seq<Step>)
    requires SystemOk(sys) && Enabled(sys, step) && SystemOk(Apply(sys, step)) && Runnable(Apply(sys, step), rest)
    ensures Runnable(sys, [step] + rest) && Run(sys, [step] + rest) == Run(Apply(sys, step), rest)
  {
    assert ([step] + rest)[1..] == rest;
  }

  lemma {:induction false} RunFirst(sys: System, steps: seq<Step>)
    requires SystemOk(sys) && Runnable(sys, steps) && steps != []
    ensures Enabled(sys, steps[0]) && SystemOk(Apply(sys, steps[0]))
    ensures Runnable(Apply(sys, steps[0]), steps[1..])
    ensures Run(sys, steps) == Run(Apply(sys, steps[0]), steps[1..])
  {
    ApplyOk(sys, steps[0]);
  }

  ghost predicate Reaches(sys: System, steps: seq<Step>, sys': System) {
    SystemOk(sys) && Runnable(sys, steps) && Run(sys, steps) == sys'
  }

  lemma {:induction false} ReachesCons(sys: System, step: Step, rest: seq<Step>, sys': System)
    requires SystemOk(sys) && Enabled(sys, step) && Reaches(Apply(sys, step), rest, sys')
    ensures Reaches(sys, [step] + rest, sys')
  {
    RunCons(sys, step, rest);
  }

  lemma {:induction false} ReachesFirst(sys: System, steps: seq<Step>, sys': System)
    requires steps != [] && Reaches(sys, steps, sys')
    ensures Enabled(sys, steps[0]) && Reaches(Apply(sys, steps[0]), steps[1..], sys')
  {
    RunFirst(sys, steps);
  }

  lemma {:induction false} ReachesConcat(sys: System, a: seq<Step>, sys1: System, b: seq<Step>, sys2: System)
    requires Reaches(sys, a, sys1) && Reaches(sys1, b, sys2)
    ensures Reaches(sys, a + b, sys2)
    decreases |a|
  {
    if a == [] {
      assert a + b == b;
    } else {
      ReachesFirst(sys, a, sys1);
      ReachesConcat(Apply(sys, a[0]), a[1..], sys1, b, sys2);
      ReachesCons(sys, a[0], a[1..] + b, sys2);
      assert [a[0]] + (a[1..] + b) == a + b;
    }
  }

  // --- End-to-end order ----------------------------------------------------------------------------

  /** A room's live messages on their way to one socket of a node, oldest first: already handed over,
      scheduled, buffered, and notified but not yet dispatched. */
  function Stream(n: Node, s: Socket, r: Room): seq<Message> {
    InRoom(Batching.Handed(n.fan, s), r) + InRoom(Batching.Scheduled(n.fan.immediates, s), r)
      + Batching.Buffer(n.fan, r) + InRoom(n.inbound, r)
  }

  ghost predicate StreamInv(db: Sequencer.Db, n: Node, s: Socket, r: Room) {
    Selects(Stream(n, s, r), InRoom(db.log, r))
  }

  ghost predicate Inv(sys: System) {
    && Sequencer.Inv(sys.db)
    && forall n, s, r :: n in sys.nodes ==> StreamInv(sys.db, sys.nodes[n], s, r)
  }

  lemma {:induction false} HeardInRoom(notes: seq<Message>, listening: set<Room>, r: Room)
    ensures InRoom(Heard(notes, listening), r) == if r in listening then InRoom(notes, r) else []
  {
    if notes != [] {
      HeardInRoom(notes[1..], listening, r);
      var first := if notes[0].room in listening then [notes[0]] else [];
      InRoomConcat(first, Heard(notes[1..], listening), r);
    }
  }

  /** A commit lengthens the stream by the room's new rows where the session listens, else leaves it. */
  lemma {:induction false} NotifyStream(n: Node, notes: seq<Message>, s: Socket, r: Room)
    ensures var n' := n.(inbound := n.inbound + Heard(notes, n.pg.listening));
            Stream(n', s, r) == Stream(n, s, r) + (if r in n.pg.listening then InRoom(notes, r) else [])
  {
    InRoomConcat(n.inbound, Heard(notes, n.pg.listening), r);
    HeardInRoom(notes, n.pg.listening, r);
  }

  lemma {:induction false} CommitStream(db: Sequencer.Db, t: Sequencer.TxId, n: Node, s: Socket, r: Room)
    requires Sequencer.Inv(db) && StreamInv(db, n, s, r)
    ensures var n' := n.(inbound := n.inbound + Heard(Sequencer.TxOf(db, t).notes, n.pg.listening));
            StreamInv(Sequencer.Apply(db, Sequencer.Commit(t)), n', s, r)
  {
    assert Sequencer.NotesInv(db, t);
    var rows := InRoom(Sequencer.TxOf(db, t).inserted, r);
    Sequencer.CommitRoom(db, t, r);
    NotifyStream(n, Sequencer.TxOf(db, t).notes, s, r);
    SelectsExtend(Stream(n, s, r), InRoom(db.log, r), rows);
    assert Stream(n, s, r) + [] == Stream(n, s, r);
  }

  lemma {:induction false} CommitKeepsInv(sys: System, t: Sequencer.TxId)
    requires SystemOk(sys) && Inv(sys) && t in sys.db.open
    ensures Inv(Apply(sys, OnDb(Sequencer.Commit(t))))
  {
    var sys' := Apply(sys, OnDb(Sequencer.Commit(t)));
    Sequencer.CommitInv(sys.db, t);
    forall n, s, r | n in sys'.nodes ensures StreamInv(sys'.db, sys'.nodes[n], s, r) {
      assert StreamInv(sys.db, sys.nodes[n], s, r);
      CommitStream(sys.db, t, sys.nodes[n], s, r);
    }
  }

  lemma InRoomFirst(ms: seq<Message>, r: Room)
    requires ms != []
    ensures InRoom(ms, r) == (if ms[0].room == r then [ms[0]] else []) + InRoom(ms[1..], r)
  {
  }

  lemma Regroup(a: seq<Message>, b: seq<Message>, c: seq<Message>, d: seq<Message>)
    ensures a + (b + c) + d == a + b + (c + d)
  {
  }

  lemma StreamIs(n: Node, s: Socket, r: Room, handed: seq<Message>, scheduled: seq<Message>, buffer: seq<Message>,
                 inbound: seq<Message>)
    requires InRoom(Batching.Handed(n.fan, s), r) == handed
    requires InRoom(Batching.Scheduled(n.fan.immediates, s), r) == scheduled
    requires Batching.Buffer(n.fan, r) == buffer && InRoom(n.inbound, r) == inbound
    ensures Stream(n, s, r) == handed + scheduled + buffer + inbound
  {
  }

  lemma {:induction false} DispatchStream(n: Node, s: Socket, r: Room)
    requires Batching.WellFormed(n.fan) && n.inbound != []
    ensures Stream(DispatchNode(n), s, r) == Stream(n, s, r)
  {
    var m, n' := n.inbound[0], DispatchNode(n);
    var handed, scheduled := InRoom(Batching.Handed(n.fan, s), r), InRoom(Batching.Scheduled(n.fan.immediates, s), r);
    var buffer, first, rest := Batching.Buffer(n.fan, r), if m.room == r then [m] else [], InRoom(n.inbound[1..], r);
    assert Batching.Buffer(n'.fan, r) == buffer + first by {
      Batching.EnqueueBuffers(n.fan, m.room, m, r);
    }
    InRoomFirst(n.inbound, r);
    StreamIs(n', s, r, handed, scheduled, buffer + first, rest);
    StreamIs(n, s, r, handed, scheduled, buffer, first + rest);
    Regroup(handed + scheduled, buffer, first, rest);
  }

  lemma {:induction false} FlushStream(n: Node, open: set<Socket>, s: Socket, r: Room)
    requires NodeOk(n)
    ensures var kept := if s in Registry.Sockets(n.reg, r) && s in open then Batching.Buffer(n.fan, r) else [];
            Stream(FlushNode(n, open), s, r) ==
            InRoom(Batching.Handed(n.fan, s), r) + InRoom(Batching.Scheduled(n.fan.immediates, s), r)
              + kept + InRoom(n.inbound, r)
  {
    var handed, scheduled := InRoom(Batching.Handed(n.fan, s), r), InRoom(Batching.Scheduled(n.fan.immediates, s), r);
    var kept := if s in Registry.Sockets(n.reg, r) && s in open then Batching.Buffer(n.fan, r) else [];
    Batching.FlushSchedules(n.fan, n.reg.roomSockets.vals, open, s, r);
    StreamIs(FlushNode(n, open), s, r, handed, scheduled + kept, [], InRoom(n.inbound, r));
    NothingBetween(handed, scheduled, kept, InRoom(n.inbound, r));
  }

  lemma {:induction false} NothingBetween(a: seq<Message>, b: seq<Message>, c: seq<Message>, d: seq<Message>)
    ensures a + (b + c) + [] + d == a + b + c + d
  {
    assert a + (b + c) + [] == a + (b + c) == a + b + c;
  }

  /** What follows the oldest job on the way to a socket. */
  function BehindJob(n: Node, s: Socket, r: Room): seq<Message>
    requires n.fan.immediates != []
  {
    InRoom(Batching.Scheduled(n.fan.immediates[1..], s), r) + Batching.Buffer(n.fan, r) + InRoom(n.inbound, r)
  }

  function JobShare(n: Node, s: Socket, r: Room): seq<Message>
    requires n.fan.immediates != []
  {
    if s in n.fan.immediates[0].sockets then InRoom(n.fan.immediates[0].batch, r) else []
  }

  lemma {:induction false} BeforeImmediate(n: Node, s: Socket, r: Room)
    requires n.fan.immediates != []
    ensures Stream(n, s, r) == InRoom(Batching.Handed(n.fan, s), r) + JobShare(n, s, r) + BehindJob(n, s, r)
  {
    var job, handed := n.fan.immediates[0], InRoom(Batching.Handed(n.fan, s), r);
    var rest := InRoom(Batching.Scheduled(n.fan.immediates[1..], s), r);
    Batching.ScheduledFirst(n.fan.immediates, s);
    InRoomConcat(if s in job.sockets then job.batch else [], Batching.Scheduled(n.fan.immediates[1..], s), r);
    StreamIs(n, s, r, handed, JobShare(n, s, r) + rest, Batching.Buffer(n.fan, r), InRoom(n.inbound, r));
    Spread(handed, JobShare(n, s, r), rest, Batching.Buffer(n.fan, r), InRoom(n.inbound, r));
  }

  lemma Spread(a: seq<Message>, b: seq<Message>, c: seq<Message>, d: seq<Message>, e: seq<Message>)
    ensures a + (b + c) + d + e == a + b + (c + d + e)
  {
  }

  lemma StreamParts(n: Node, n': Node, s: Socket, r: Room)
    requires n.fan.immediates != [] && n'.fan.immediates == n.fan.immediates[1..]
    requires n'.fan.buffers == n.fan.buffers && n'.inbound == n.inbound
    ensures Stream(n', s, r) == InRoom(Batching.Handed(n'.fan, s), r) + BehindJob(n, s, r)
  {
  }

  lemma {:induction false} AfterImmediate(n: Node, failed: set<Socket>, s: Socket, r: Room)
    requires n.fan.immediates != []
    ensures Stream(ImmediateNode(n, failed), s, r) ==
            InRoom(Batching.Handed(n.fan, s), r) + (if s in failed then [] else JobShare(n, s, r)) + BehindJob(n, s, r)
  {
    var job := n.fan.immediates[0];
    Batching.ImmediateHands(n.fan, failed, s);
    InRoomConcat(Batching.Handed(n.fan, s), if s in job.sockets && s !in failed then job.batch else [], r);
    StreamParts(n, ImmediateNode(n, failed), s, r);
  }

  /** `after` is `before` without one contiguous stretch, which may be empty. */
  ghost predicate LosesStretch(before: seq<Message>, after: seq<Message>) {
    exists i, j :: 0 <= i <= j <= |before| && after == before[..i] + before[j..]
  }

  lemma {:induction false} Stretch(a: seq<Message>, b: seq<Message>, c: seq<Message>)
    ensures LosesStretch(a + b + c, a + c)
  {
    var whole := a + b + c;
    assert whole[..|a|] == a && whole[|a + b|..] == c;
    assert a + c == whole[..|a|] + whole[|a + b|..];
  }

  lemma {:induction false} Unchanged(stream: seq<Message>)
    ensures LosesStretch(stream, stream)
  {
    Stretch(stream, [], []);
    assert stream + [] + [] == stream == stream + [];
  }

  lemma {:induction false} MayLose(a: seq<Message>, b: seq<Message>, c: seq<Message>, kept: bool)
    ensures LosesStretch(a + b + c, a + (if kept then b else []) + c)
  {
    if kept {
      Unchanged(a + b + c);
    } else {
      Stretch(a, b, c);
      assert a + [] == a;
    }
  }

  lemma {:induction false} SelectsStretch(before: seq<Message>, after: seq<Message>, roomLog: seq<Message>)
    requires LosesStretch(before, after) && Selects(before, roomLog)
    ensures Selects(after, roomLog)
  {
    var i, j :| 0 <= i <= j <= |before| && after == before[..i] + before[j..];
    assert before == before[..i] + before[i..j] + before[j..];
    SelectsDrop(before[..i], before[i..j], before[j..], roomLog);
  }

  lemma {:induction false} ImmediateLoses(n: Node, failed: set<Socket>, s: Socket, r: Room)
    requires n.fan.immediates != []
    ensures LosesStretch(Stream(n, s, r), Stream(ImmediateNode(n, failed), s, r))
  {
    var handed, share, rest := InRoom(Batching.Handed(n.fan, s), r), JobShare(n, s, r), BehindJob(n, s, r);
    BeforeImmediate(n, s, r);
    AfterImmediate(n, failed, s, r);
    MayLose(handed, share, rest, s !in failed);
  }

  lemma {:induction false} FlushLoses(n: Node, open: set<Socket>, s: Socket, r: Room)
    requires NodeOk(n)
    ensures LosesStretch(Stream(n, s, r), Stream(FlushNode(n, open), s, r))
  {
    var lead := InRoom(Batching.Handed(n.fan, s), r) + InRoom(Batching.Scheduled(n.fan.immediates, s), r);
    FlushStream(n, open, s, r);
    MayLose(lead, Batching.Buffer(n.fan, r), InRoom(n.inbound, r), s in Registry.Sockets(n.reg, r) && s in open);
  }

  /** Losing the newest notifications of a session. */
  lemma {:induction false} InboundLoses(n: Node, kept: nat, s: Socket, r: Room)
    requires kept <= |n.inbound|
    ensures LosesStretch(Stream(n, s, r), Stream(n.(inbound := n.inbound[..kept]), s, r))
  {
    var n' := n.(inbound := n.inbound[..kept]);
    InRoomConcat(n.inbound[..kept], n.inbound[kept..], r);
    assert n.inbound == n.inbound[..kept] + n.inbound[kept..];
    var lost := InRoom(n.inbound[kept..], r);
    Assoc(InRoom(Batching.Handed(n.fan, s), r) + InRoom(Batching.Scheduled(n.fan.immediates, s), r)
            + Batching.Buffer(n.fan, r), InRoom(n.inbound[..kept], r), lost);
    Stretch(Stream(n', s, r), lost, []);
    assert Stream(n, s, r) == Stream(n', s, r) + lost + [];
    assert Stream(n', s, r) + [] == Stream(n', s, r);
  }

  /** What a lost session costs a stream: exactly the room's notifications that were not yet dispatched, those
      past the ones that still arrive, or all of them once the client is replaced. */
  lemma {:induction false} LostNotifications(n: Node, kept: nat, s: Socket, r: Room)
    requires NodeOk(n)
    ensures kept <= |n.inbound| ==>
              Stream(n, s, r) == Stream(ApplyNode(n, LoseTail(kept)), s, r) + InRoom(n.inbound[kept..], r)
    ensures kept >= |n.inbound| ==> Stream(n, s, r) == Stream(ApplyNode(n, LoseTail(kept)), s, r)
    ensures NodeEnabled(n, Listen(ListenManager.Reconnect)) ==>
              Stream(n, s, r) == Stream(ApplyNode(n, Listen(ListenManager.Reconnect)), s, r) + InRoom(n.inbound, r)
  {
    if kept <= |n.inbound| { LostTail(n, kept, s, r); }
    LostTail(n, 0, s, r);
    assert n.inbound[0..] == n.inbound && n.inbound[..0] == [];
    if kept == |n.inbound| {
      assert n.inbound[..kept] == n.inbound;
    }
  }

  lemma {:induction false} LostTail(n: Node, kept: nat, s: Socket, r: Room)
    requires kept <= |n.inbound|
    ensures Stream(n, s, r) == Stream(n.(inbound := n.inbound[..kept]), s, r) + InRoom(n.inbound[kept..], r)
  {
    InRoomConcat(n.inbound[..kept], n.inbound[kept..], r);
    assert n.inbound == n.inbound[..kept] + n.inbound[kept..];
    Assoc(InRoom(Batching.Handed(n.fan, s), r) + InRoom(Batching.Scheduled(n.fan.immediates, s), r)
            + Batching.Buffer(n.fan, r), InRoom(n.inbound[..kept], r), InRoom(n.inbound[kept..], r));
  }

  // --- The flush timer -----------------------------------------------------------------------------

  ghost predicate Armed(sys: System, n: NodeId) {
    n in sys.nodes && sys.nodes[n].fan.timerArmed
  }

  /** A node's flush, or its shutdown, ends the wait for the flush timer. */
  predicate Disarms(step: Step, n: NodeId) {
    step.OnNode? && step.node == n && (step.nodeStep.FlushTimer? || step.nodeStep.Destroy?)
  }

  predicate StaysArmed(steps: seq<Step>, n: NodeId) {
    forall step :: step in steps ==> !Disarms(step, n)
  }

  /** A notification was dispatched on the node and neither a flush nor its shutdown followed. */
  ghost predicate DispatchedSince(steps: seq<Step>, n: NodeId) {
    exists i :: 0 <= i < |steps| && steps[i] == OnNode(n, Dispatch) && StaysArmed(steps[i + 1..], n)
  }

  lemma {:induction false} DispatchedSinceCons(steps: seq<Step>, n: NodeId)
    requires steps != []
    ensures DispatchedSince(steps, n) <==>
            DispatchedSince(steps[1..], n) || (steps[0] == OnNode(n, Dispatch) && StaysArmed(steps[1..], n))
  {
    if DispatchedSince(steps, n) {
      var i :| 0 <= i < |steps| && steps[i] == OnNode(n, Dispatch) && StaysArmed(steps[i + 1..], n);
      if i > 0 { assert steps[1..][i - 1] == steps[i] && steps[1..][i..] == steps[i + 1..]; }
    }
    if DispatchedSince(steps[1..], n) {
      var i :| 0 <= i < |steps[1..]| && steps[1..][i] == OnNode(n, Dispatch) && StaysArmed(steps[1..][i + 1..], n);
      assert steps[i + 1] == steps[1..][i] && steps[i + 2..] == steps[1..][i + 1..];
    }
  }

  lemma {:induction false} StaysArmedCons(steps: seq<Step>, n: NodeId)
    requires steps != []
    ensures StaysArmed(steps, n) <==> !Disarms(steps[0], n) && StaysArmed(steps[1..], n)
  {
    assert steps == [steps[0]] + steps[1..];
  }

  lemma {:induction false} ArmedStep(sys: System, step: Step, n: NodeId)
    requires SystemOk(sys) && Enabled(sys, step)
    ensures Armed(Apply(sys, step), n) <==>
            step == OnNode(n, Dispatch) || (Armed(sys, n) && !Disarms(step, n))
  {
    if step.OnNode? && step.node == n {
      NodeArmed(sys.nodes[n], step.nodeStep);
    }
  }

  lemma NodeArmed(n: Node, step: NodeStep)
    requires NodeOk(n) && NodeEnabled(n, step)
    ensures ApplyNode(n, step).fan.timerArmed <==>
            step.Dispatch? || (n.fan.timerArmed && !step.FlushTimer? && !step.Destroy?)
  {
  }

  lemma {:induction false} ArmedFrom(sys: System, steps: seq<Step>, n: NodeId)
    requires SystemOk(sys) && Runnable(sys, steps)
    ensures Armed(Run(sys, steps), n) <==> DispatchedSince(steps, n) || (Armed(sys, n) && StaysArmed(steps, n))
    decreases |steps|
  {
    if steps != [] {
      RunFirst(sys, steps);
      ArmedStep(sys, steps[0], n);
      ArmedFrom(Apply(sys, steps[0]), steps[1..], n);
      DispatchedSinceCons(steps, n);
      StaysArmedCons(steps, n);
    }
  }

  /** When a node may flush. In every run a node's flush is possible exactly when a notification was dispatched
      on it that neither a flush nor its shutdown followed. */
  lemma {:induction false} FlushPossibleIff(steps: seq<Step>, n: NodeId, open: set<Socket>)
    requires Runnable(Initial(), steps)
    ensures Enabled(Run(Initial(), steps), OnNode(n, FlushTimer(open))) <==> DispatchedSince(steps, n)
  {
    ArmedFrom(Initial(), steps, n);
  }

  /** A step of a node adds nothing to a stream and reorders nothing: it loses at most one stretch of it. */
  lemma {:induction false} NodeStepStream(n: Node, step: NodeStep, s: Socket, r: Room)
    requires NodeOk(n) && NodeEnabled(n, step)
    ensures LosesStretch(Stream(n, s, r), Stream(ApplyNode(n, step), s, r))
  {
    Unchanged(Stream(n, s, r));
    match step
    case Dispatch => DispatchStream(n, s, r);
    case FlushTimer(open) => FlushLoses(n, open, s, r);
    case Immediate(failed) => ImmediateLoses(n, failed, s, r);
    case LoseTail(kept) => if kept < |n.inbound| { InboundLoses(n, kept, s, r); }
    case Listen(ls) => if ls.Reconnect? { InboundLoses(n, 0, s, r); }
    case _ =>
  }

  lemma {:induction false} NodeStepKeeps(n: Node, step: NodeStep, s: Socket, r: Room, roomLog: seq<Message>)
    requires NodeOk(n) && NodeEnabled(n, step) && Selects(Stream(n, s, r), roomLog)
    ensures Selects(Stream(ApplyNode(n, step), s, r), roomLog)
  {
    NodeStepStream(n, step, s, r);
    SelectsStretch(Stream(n, s, r), Stream(ApplyNode(n, step), s, r), roomLog);
  }

  lemma {:induction false} StepInv(sys: System, step: Step)
    requires SystemOk(sys) && Inv(sys) && Enabled(sys, step)
    ensures Inv(Apply(sys, step))
  {
    var sys' := Apply(sys, step);
    match step
    case Boot(b) =>
      forall n, s, r | n in sys'.nodes ensures StreamInv(sys'.db, sys'.nodes[n], s, r) {
        if n != b { assert StreamInv(sys.db, sys.nodes[n], s, r); }
      }
    case OnDb(ds) =>
      if ds.Commit? {
        CommitKeepsInv(sys, ds.tx);
      } else {
        Sequencer.StepInv(sys.db, ds);
        forall n, s, r | n in sys'.nodes ensures StreamInv(sys'.db, sys'.nodes[n], s, r) {
          assert StreamInv(sys.db, sys.nodes[n], s, r);
        }
      }
    case OnNode(b, ns) =>
      forall n, s, r | n in sys'.nodes ensures StreamInv(sys'.db, sys'.nodes[n], s, r) {
        assert StreamInv(sys.db, sys.nodes[n], s, r);
        if n == b { NodeStepKeeps(sys.nodes[n], ns, s, r, InRoom(sys.db.log, r)); }
      }
  }

  lemma {:induction false} EmptyInv()
    ensures Inv(Initial())
  {
    Sequencer.EmptyInv();
  }

  lemma {:induction false} RunInv(sys: System, steps: seq<Step>)
    requires SystemOk(sys) && Inv(sys) && Runnable(sys, steps)
    ensures Inv(Run(sys, steps))
    decreases |steps|
  {
    if steps != [] {
      StepInv(sys, steps[0]);
      ApplyOk(sys, steps[0]);
      RunInv(Apply(sys, steps[0]), steps[1..]);
    }
  }

  /** What a socket of the node has been handed of a room, and that followed by all that is on its way,
      are committed rows of the room in strictly increasing number order. */
  ghost predicate OrderedDelivery(sys: System, n: NodeId, s: Socket, r: Room)
    requires n in sys.nodes
  {
    && Selects(Stream(sys.nodes[n], s, r), InRoom(sys.db.log, r))
    && Selects(InRoom(Batching.Handed(sys.nodes[n].fan, s), r), InRoom(sys.db.log, r))
  }

  lemma {:induction false} OrderIn(sys: System, n: NodeId, s: Socket, r: Room)
    requires Inv(sys) && n in sys.nodes
    ensures OrderedDelivery(sys, n, s, r)
  {
    assert StreamInv(sys.db, sys.nodes[n], s, r);
    SelectsPrefix(InRoom(Batching.Handed(sys.nodes[n].fan, s), r), Stream(sys.nodes[n], s, r), InRoom(sys.db.log, r));
  }

  lemma {:induction false} SelectsPrefix(handed: seq<Message>, stream: seq<Message>, roomLog: seq<Message>)
    requires handed <= stream && Selects(stream, roomLog)
    ensures Selects(handed, roomLog)
  {
    assert forall i :: 0 <= i < |handed| ==> handed[i] == stream[i];
  }

  /** End-to-end order safety. In every run the live messages handed to one socket for one room are
      committed rows of that room in strictly increasing number order: no duplicate, no reorder; and
      so is everything still on its way to the socket behind them. */
  lemma {:induction false} EndToEndOrder(steps: seq<Step>, n: NodeId, s: Socket, r: Room)
    requires Runnable(Initial(), steps) && n in Run(Initial(), steps).nodes
    ensures OrderedDelivery(Run(Initial(), steps), n, s, r)
  {
    EmptyInv();
    RunInv(Initial(), steps);
    OrderIn(Run(Initial(), steps), n, s, r);
  }
}
