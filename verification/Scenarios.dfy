/** Concrete histories of the whole system: joins with a gap in their seam, and a refused join whose socket is
    handed live messages. */
module Scenarios {
  import opened ChatTypes
  import opened Pipeline
  import Sequencer
  import ListenManager
  import Batching
  import Registry
  import EcmaMap
  import Seam
  import History

  /** A room and `k` messages, each posted by a transaction of its own. */
  function Posts(r: Room, u: User, k: nat): seq<Sequencer.Step> {
    if k == 0 then [Sequencer.CreateRoom(r)]
    else
      var t := Sequencer.TxId(k);
      Posts(r, u, k - 1) + [Sequencer.Insert(t, r, u), Sequencer.Commit(t)]
  }

  lemma {:induction false} PostOne(d: Sequencer.Db, r: Room, u: User, t: Sequencer.TxId, k: nat)
    requires d.rows == map[r := Sequencer.Row(k + 1, k + 1, None)] && d.open == map[]
    ensures var steps := [Sequencer.Insert(t, r, u), Sequencer.Commit(t)];
            && Sequencer.Runnable(d, steps)
            && Sequencer.Run(d, steps).rows == map[r := Sequencer.Row(k + 2, k + 2, None)]
            && Sequencer.Run(d, steps).open == map[]
  {
    var insert, commit := Sequencer.Insert(t, r, u), Sequencer.Commit(t);
    var d1 := Sequencer.Apply(d, insert);
    var d2 := Sequencer.Apply(d1, commit);
    assert d1.rows == map[r := Sequencer.Row(k + 1, k + 2, Some(t))];
    assert d1.open.Keys == {t};
    assert [insert, commit][1..] == [commit] && [commit][1..] == [];
    assert Sequencer.Run(d2, []) == d2;
    assert Sequencer.Run(d1, [commit]) == d2;
  }

  lemma {:induction false} PostsRun(r: Room, u: User, k: nat)
    ensures Sequencer.Runnable(Sequencer.EMPTY_DB, Posts(r, u, k))
    ensures var d := Sequencer.Run(Sequencer.EMPTY_DB, Posts(r, u, k));
            d.rows == map[r := Sequencer.Row(k + 1, k + 1, None)] && d.open == map[] && |InRoom(d.log, r)| == k
  {
    if k == 0 {
      assert [Sequencer.CreateRoom(r)][1..] == [];
    } else {
      PostsRun(r, u, k - 1);
      var d, t := Sequencer.Run(Sequencer.EMPTY_DB, Posts(r, u, k - 1)), Sequencer.TxId(k);
      PostOne(d, r, u, t, k - 1);
      Sequencer.RunConcat(Sequencer.EMPTY_DB, Posts(r, u, k - 1), [Sequencer.Insert(t, r, u), Sequencer.Commit(t)]);
    }
    Sequencer.GaplessSequencing(Posts(r, u, k), r);
  }

  function OnlyDb(steps: seq<Sequencer.Step>): seq<Step> {
    seq(|steps|, i requires 0 <= i < |steps| => OnDb(steps[i]))
  }

  lemma {:induction false} OnlyDbRun(d: Sequencer.Db, steps: seq<Sequencer.Step>)
    requires Sequencer.Runnable(d, steps)
    ensures Runnable(System(d, map[]), OnlyDb(steps))
    ensures Run(System(d, map[]), OnlyDb(steps)) == System(Sequencer.Run(d, steps), map[])
    decreases |steps|
  {
    if steps != [] {
      var sys, step := System(d, map[]), OnlyDb(steps)[0];
      assert OnlyDb(steps)[1..] == OnlyDb(steps[1..]);
      ApplyOk(sys, step);
      assert Apply(sys, step) == System(Sequencer.Apply(d, steps[0]), map[]);
      OnlyDbRun(Sequencer.Apply(d, steps[0]), steps[1..]);
    }
  }

  lemma Pair<T>(a: T, b: T)
    ensures [a] + ([b] + []) == [a, b]
  {
  }

  // --- Steps of one node -----------------------------------------------------------------------------

  ghost predicate NodeRunnable(node: Node, steps: seq<NodeStep>)
    requires NodeOk(node)
    decreases |steps|
  {
    steps == [] ||
    (&& NodeEnabled(node, steps[0])
     && (ApplyNodeOk(node, steps[0]); NodeRunnable(ApplyNode(node, steps[0]), steps[1..])))
  }

  ghost function NodeRun(node: Node, steps: seq<NodeStep>): (node': Node)
    requires NodeOk(node) && NodeRunnable(node, steps)
    ensures NodeOk(node')
    decreases |steps|
  {
    if steps == [] then node
    else (ApplyNodeOk(node, steps[0]); NodeRun(ApplyNode(node, steps[0]), steps[1..]))
  }

  ghost predicate Leads(node: Node, steps: seq<NodeStep>, node': Node) {
    NodeOk(node) && NodeRunnable(node, steps) && NodeRun(node, steps) == node'
  }

  lemma {:induction false} LeadsCons(node: Node, step: NodeStep, rest: seq<NodeStep>, node': Node)
    requires NodeOk(node) && NodeEnabled(node, step) && Leads(ApplyNode(node, step), rest, node')
    ensures Leads(node, [step] + rest, node')
  {
    assert ([step] + rest)[1..] == rest;
  }

  function OnOne(n: NodeId, steps: seq<NodeStep>): seq<Step> {
    seq(|steps|, i requires 0 <= i < |steps| => OnNode(n, steps[i]))
  }

  lemma {:induction false} LeadsFirst(node: Node, steps: seq<NodeStep>, node': Node)
    requires Leads(node, steps, node') && steps != []
    ensures NodeEnabled(node, steps[0]) && Leads(ApplyNode(node, steps[0]), steps[1..], node')
  {
    ApplyNodeOk(node, steps[0]);
  }

  lemma {:induction false} OneStep(sys: System, n: NodeId, step: NodeStep, rest: seq<Step>, sys1: System, sys': System)
    requires SystemOk(sys) && n in sys.nodes && NodeEnabled(sys.nodes[n], step)
    requires sys1 == System(sys.db, sys.nodes[n := ApplyNode(sys.nodes[n], step)])
    requires Reaches(sys1, rest, sys')
    ensures Reaches(sys, [OnNode(n, step)] + rest, sys')
  {
    ReachesCons(sys, OnNode(n, step), rest, sys');
  }

  lemma SetTwice(nodes: map<NodeId, Node>, n: NodeId, node1: Node, node2: Node)
    ensures nodes[n := node1][n := node2] == nodes[n := node2]
    ensures n in nodes ==> nodes[n := nodes[n]] == nodes
  {
  }

  lemma OnOneFirst(n: NodeId, steps: seq<NodeStep>)
    requires steps != []
    ensures [OnNode(n, steps[0])] + OnOne(n, steps[1..]) == OnOne(n, steps)
  {
  }

  lemma OneNodeOk(sys: System, n: NodeId, node: Node)
    requires SystemOk(sys) && NodeOk(node)
    ensures SystemOk(System(sys.db, sys.nodes[n := node]))
  {
  }

  lemma {:induction false} OnOneRun(sys: System, n: NodeId, steps: seq<NodeStep>, node': Node)
    requires SystemOk(sys) && n in sys.nodes && Leads(sys.nodes[n], steps, node')
    ensures Reaches(sys, OnOne(n, steps), System(sys.db, sys.nodes[n := node']))
    decreases |steps|
  {
    if steps == [] {
      SetTwice(sys.nodes, n, node', node');
    } else {
      LeadsFirst(sys.nodes[n], steps, node');
      var node1 := ApplyNode(sys.nodes[n], steps[0]);
      var sys1 := System(sys.db, sys.nodes[n := node1]);
      var sys' := System(sys.db, sys.nodes[n := node']);
      SetTwice(sys.nodes, n, node1, node');
      OneNodeOk(sys, n, node1);
      OnOneRun(sys1, n, steps[1..], node');
      OneStep(sys, n, steps[0], OnOne(n, steps[1..]), sys1, sys');
      OnOneFirst(n, steps);
    }
  }

  // --- A join ----------------------------------------------------------------------------------------

  /** A socket connects and joins, and the room's LISTEN is answered. */
  function JoinSteps(s: Socket, u: User, r: Room): seq<NodeStep> {
    [Connect(s, u), Register(s, r), Listen(ListenManager.Subscribe(r)), Listen(ListenManager.Serve(true))]
  }

  /** A node that listens to the room, has these sockets registered for it and has sent nothing yet. */
  ghost predicate Waiting(node: Node, sockets: set<Socket>, r: Room) {
    && NodeOk(node)
    && node.pg.listening == {r} && Registry.Sockets(node.reg, r) == sockets
    && node.inbound == [] && node.fan == Batching.Start()
  }

  lemma {:induction false} RegisterSteps(node: Node, s: Socket, u: User, r: Room, rest: seq<NodeStep>, node': Node)
    requires NodeOk(node) && s !in node.reg.userOf
    requires var g := Registry.AddToRoom(Registry.Connect(node.reg, s, u), r, s); Leads(node.(reg := g), rest, node')
    ensures Leads(node, [Connect(s, u), Register(s, r)] + rest, node')
  {
    var node1 := node.(reg := Registry.Connect(node.reg, s, u));
    LeadsCons(node1, Register(s, r), rest, node');
    LeadsCons(node, Connect(s, u), [Register(s, r)] + rest, node');
    assert [Connect(s, u)] + ([Register(s, r)] + rest) == [Connect(s, u), Register(s, r)] + rest;
  }

  lemma {:induction false} ListenSteps(node: Node, r: Room) returns (node': Node)
    requires NodeOk(node) && node.pg == ListenManager.Start()
    ensures Leads(node, [Listen(ListenManager.Subscribe(r)), Listen(ListenManager.Serve(true))], node')
    ensures node' == node.(pg := node'.pg) && node'.pg.listening == {r}
  {
    var subscribe, serve := Listen(ListenManager.Subscribe(r)), Listen(ListenManager.Serve(true));
    var node1 := ApplyNode(node, subscribe);
    assert node1.pg.queue == [ListenManager.Listen(r)];
    node' := ApplyNode(node1, serve);
    LeadsCons(node1, serve, [], node');
    LeadsCons(node, subscribe, [serve] + [], node');
    Pair(subscribe, serve);
  }

  lemma {:induction false} JoinRun(s: Socket, u: User, r: Room) returns (node: Node)
    ensures Leads(BootNode(), JoinSteps(s, u, r), node)
    ensures Waiting(node, {s}, r) && node.reg.userOf == map[s := u]
  {
    var g := Registry.AddToRoom(Registry.Connect(Registry.Start(), s, u), r, s);
    var listen := [Listen(ListenManager.Subscribe(r)), Listen(ListenManager.Serve(true))];
    node := ListenSteps(BootNode().(reg := g), r);
    RegisterSteps(BootNode(), s, u, r, listen, node);
    assert [Connect(s, u), Register(s, r)] + listen == JoinSteps(s, u, r);
  }

  /** A database with `k` messages, and then a new node that a socket joins on. */
  function PostsThenJoin(n: NodeId, s: Socket, u: User, r: Room, k: nat): seq<Step> {
    OnlyDb(Posts(r, u, k)) + ([Boot(n)] + OnOne(n, JoinSteps(s, u, r)))
  }

  /** Where that leads to. */
  ghost predicate AfterJoin(sys: System, n: NodeId, s: Socket, u: User, r: Room, k: nat) {
    && n in sys.nodes && Waiting(sys.nodes[n], {s}, r) && sys.nodes[n].reg.userOf == map[s := u]
    && sys.db.rows == map[r := Sequencer.Row(k + 1, k + 1, None)] && sys.db.open == map[]
    && |InRoom(sys.db.log, r)| == k
  }

  lemma {:induction false} PostsThenJoinRun(n: NodeId, s: Socket, u: User, r: Room, k: nat) returns (sys: System)
    ensures Reaches(Initial(), PostsThenJoin(n, s, u, r, k), sys) && AfterJoin(sys, n, s, u, r, k)
  {
    PostsRun(r, u, k);
    OnlyDbRun(Sequencer.EMPTY_DB, Posts(r, u, k));
    var sys0 := Run(Initial(), OnlyDb(Posts(r, u, k)));
    sys := BootThenJoin(sys0, n, s, u, r);
    ReachesConcat(Initial(), OnlyDb(Posts(r, u, k)), sys0, [Boot(n)] + OnOne(n, JoinSteps(s, u, r)), sys);
  }

  lemma {:induction false} BootThenJoin(sys: System, n: NodeId, s: Socket, u: User, r: Room) returns (sys': System)
    requires SystemOk(sys) && n !in sys.nodes
    ensures Reaches(sys, [Boot(n)] + OnOne(n, JoinSteps(s, u, r)), sys')
    ensures sys'.db == sys.db && n in sys'.nodes
    ensures Waiting(sys'.nodes[n], {s}, r) && sys'.nodes[n].reg.userOf == map[s := u]
  {
    ApplyOk(sys, Boot(n));
    var node := JoinRun(s, u, r);
    var sys1 := Apply(sys, Boot(n));
    OnOneRun(sys1, n, JoinSteps(s, u, r), node);
    sys' := System(sys1.db, sys1.nodes[n := node]);
    ReachesCons(sys, Boot(n), OnOne(n, JoinSteps(s, u, r)), sys');
  }

  /** The gap is reachable: 101 messages beyond `lastSeen` are posted, and then a socket joins. */
  lemma {:induction false} GapReachable(n: NodeId, s: Socket, u: User, r: Room, lastSeen: nat)
    ensures var steps := PostsThenJoin(n, s, u, r, lastSeen + 101);
            && Runnable(Initial(), steps)
            && Seam.Watching(Run(Initial(), steps), n, s, r)
            && !Seam.NoGap(Run(Initial(), steps), Run(Initial(), steps), n, s, r, lastSeen)
  {
    var steps := PostsThenJoin(n, s, u, r, lastSeen + 101);
    var sys := PostsThenJoinRun(n, s, u, r, lastSeen + 101);
    assert Stream(sys.nodes[n], s, r) == [];
    EmptyInv();
    RunInv(Initial(), steps);
    Seam.InvGapless(sys, r);
    Seam.StillGrows(sys, n, s, r);
    Seam.BacklogGapIff(sys, sys, n, s, r, lastSeen);
  }

  // --- A refused join --------------------------------------------------------------------------------

  /** A message that the node has heard is fanned out to an open socket. */
  function DeliverySteps(s: Socket): seq<NodeStep> {
    [Dispatch, FlushTimer({s}), Immediate({})]
  }

  lemma {:induction false} BufferOne(m: Message)
    ensures var buffers := Batching.DoEnqueue(Batching.Start(), m.room, m).buffers;
            buffers.slots == [EcmaMap.Key(m.room)] && buffers.vals == map[m.room := [m]]
  {
    assert Batching.Buffer(Batching.Start(), m.room) + [m] == [m];
  }

  lemma {:induction false} BatchesOne(m: Message, slots: seq<EcmaMap.Slot<Room>>, vals: map<Room, seq<Message>>)
    requires slots == [EcmaMap.Key(m.room)] && vals == map[m.room := [m]]
    ensures Batching.Batches(slots, vals) == [Batching.Broadcast(m.room, [m])]
  {
    Batching.BatchesNext(slots, 0, vals);
    assert slots[..0] == [] && slots[..1] == slots;
  }

  lemma {:induction false} JobsOne(m: Message, sockets: map<Room, set<Socket>>, s: Socket)
    requires m.room in sockets && s in sockets[m.room]
    ensures Batching.Jobs([Batching.Broadcast(m.room, [m])], sockets, {s}) == [Batching.Job([m], {s})]
  {
    var b := Batching.Broadcast(m.room, [m]);
    Batching.JobsNext([], b, sockets, {s});
    assert [] + [b] == [b];
    assert Batching.Targets(m.room, sockets, {s}) == {s};
  }

  lemma {:induction false} FlushOne(fan: Batching.FanOut, sockets: map<Room, set<Socket>>, s: Socket, m: Message)
    requires fan == Batching.DoEnqueue(Batching.Start(), m.room, m)
    requires m.room in sockets && s in sockets[m.room]
    ensures Batching.DoFlush(fan, sockets, {s}).immediates == [Batching.Job([m], {s})]
    ensures Batching.Handed(Batching.DoFlush(fan, sockets, {s}), s) == []
  {
    BufferOne(m);
    BatchesOne(m, fan.buffers.slots, fan.buffers.vals);
    JobsOne(m, sockets, s);
  }

  lemma {:induction false} FlushThenHand(node: Node, s: Socket, m: Message) returns (node': Node)
    requires NodeOk(node) && node.fan == Batching.DoEnqueue(Batching.Start(), m.room, m)
    requires s in Registry.Sockets(node.reg, m.room)
    ensures Leads(node, [FlushTimer({s}), Immediate({})], node') && Batching.Handed(node'.fan, s) == [m]
  {
    FlushOne(node.fan, node.reg.roomSockets.vals, s, m);
    var node1 := FlushNode(node, {s});
    ApplyNodeOk(node, FlushTimer({s}));
    node' := ImmediateNode(node1, {});
    ApplyNodeOk(node1, Immediate({}));
    Batching.ImmediateHands(node1.fan, {}, s);
    LeadsCons(node1, Immediate({}), [], node');
    LeadsCons(node, FlushTimer({s}), [Immediate({})] + [], node');
    Pair(FlushTimer({s}), Immediate({}));
  }

  lemma {:induction false} Deliver(node: Node, s: Socket, m: Message) returns (node': Node)
    requires NodeOk(node) && node.inbound == [m] && node.fan == Batching.Start()
    requires s in Registry.Sockets(node.reg, m.room)
    ensures Leads(node, DeliverySteps(s), node') && Batching.Handed(node'.fan, s) == [m]
  {
    var node1 := DispatchNode(node);
    ApplyNodeOk(node, Dispatch);
    node' := FlushThenHand(node1, s, m);
    LeadsCons(node, Dispatch, [FlushTimer({s}), Immediate({})], node');
    assert [Dispatch] + [FlushTimer({s}), Immediate({})] == DeliverySteps(s);
  }

  function PostSteps(r: Room, u: User): seq<Step> {
    [OnDb(Sequencer.Insert(Sequencer.TxId(0), r, u)), OnDb(Sequencer.Commit(Sequencer.TxId(0)))]
  }

  lemma {:induction false} QuietDbStep(sys: System, step: Sequencer.Step, sys1: System, rest: seq<Step>, sys': System)
    requires SystemOk(sys) && Sequencer.Enabled(sys.db, step) && !step.Commit?
    requires sys1 == System(Sequencer.Apply(sys.db, step), sys.nodes) && Reaches(sys1, rest, sys')
    ensures Reaches(sys, [OnDb(step)] + rest, sys')
  {
    assert Apply(sys, OnDb(step)) == sys1;
    ReachesCons(sys, OnDb(step), rest, sys');
  }

  lemma {:induction false} CommitHeard(sys: System, n: NodeId, t: Sequencer.TxId) returns (sys': System)
    requires SystemOk(sys) && n in sys.nodes && Sequencer.Enabled(sys.db, Sequencer.Commit(t))
    ensures Reaches(sys, [OnDb(Sequencer.Commit(t))] + [], sys') && n in sys'.nodes
    ensures var heard := Heard(Sequencer.TxOf(sys.db, t).notes, sys.nodes[n].pg.listening);
            sys'.nodes[n] == sys.nodes[n].(inbound := sys.nodes[n].inbound + heard)
    ensures sys'.db.log == sys.db.log + Sequencer.TxOf(sys.db, t).inserted
  {
    ApplyOk(sys, OnDb(Sequencer.Commit(t)));
    sys' := Apply(sys, OnDb(Sequencer.Commit(t)));
    ReachesCons(sys, OnDb(Sequencer.Commit(t)), [], sys');
  }

  lemma PostTx(d: Sequencer.Db, r: Room, u: User, t: Sequencer.TxId, d1: Sequencer.Db)
    requires d.rows == map[r := Sequencer.Row(1, 1, None)] && d.open == map[]
    requires d1 == Sequencer.Apply(d, Sequencer.Insert(t, r, u))
    ensures Sequencer.Enabled(d, Sequencer.Insert(t, r, u)) && Sequencer.Enabled(d1, Sequencer.Commit(t))
    ensures Sequencer.TxOf(d1, t) == Sequencer.Tx([Message(r, 1, u)], [Message(r, 1, u)]) && d1.log == d.log
  {
  }

  lemma {:induction false} HeardOne(m: Message, listening: set<Room>)
    ensures Heard([m], listening) == if m.room in listening then [m] else []
  {
    assert [m][1..] == [] && [m] + [] == [m];
  }

  lemma {:induction false} PostHeard(sys: System, n: NodeId, r: Room, u: User) returns (sys': System)
    requires SystemOk(sys) && n in sys.nodes && sys.nodes[n].inbound == []
    requires sys.db.rows == map[r := Sequencer.Row(1, 1, None)] && sys.db.open == map[]
    ensures Reaches(sys, PostSteps(r, u), sys') && sys'.db.log == sys.db.log + [Message(r, 1, u)]
    ensures var heard := if r in sys.nodes[n].pg.listening then [Message(r, 1, u)] else [];
            n in sys'.nodes && sys'.nodes[n] == sys.nodes[n].(inbound := heard)
  {
    var t := Sequencer.TxId(0);
    var insert, commit := Sequencer.Insert(t, r, u), Sequencer.Commit(t);
    var sys1 := System(Sequencer.Apply(sys.db, insert), sys.nodes);
    PostTx(sys.db, r, u, t, sys1.db);
    HeardOne(Message(r, 1, u), sys.nodes[n].pg.listening);
    sys' := CommitHeard(sys1, n, t);
    QuietDbStep(sys, insert, sys1, [OnDb(commit)] + [], sys');
    Pair(OnDb(insert), OnDb(commit));
  }

  /** What a join leaves of a socket that is no member: connected and registered, no subscription. */
  function RefusedSteps(s: Socket, u: User, r: Room): seq<NodeStep> {
    [Connect(s, u), Register(s, r)]
  }

  lemma {:induction false} RefusedRun(node: Node, member: Socket, s: Socket, u: User, r: Room) returns (node': Node)
    requires Waiting(node, {member}, r) && s !in node.reg.userOf
    ensures Leads(node, RefusedSteps(s, u, r), node') && Waiting(node', {member, s}, r)
  {
    node' := node.(reg := Registry.AddToRoom(Registry.Connect(node.reg, s, u), r, s));
    RegisterSteps(node, s, u, r, [], node');
    assert [Connect(s, u), Register(s, r)] + [] == RefusedSteps(s, u, r);
  }

  /** User `u` joins with one socket, the join of another user's socket is refused, `u` posts a message, and
      it is fanned out. */
  function RefusedJoin(n: NodeId, member: Socket, u: User, s: Socket, outsider: User, r: Room): seq<Step> {
    PostsThenJoin(n, member, u, r, 0) + RefusedThen(n, u, s, outsider, r)
  }

  function RefusedThen(n: NodeId, u: User, s: Socket, outsider: User, r: Room): seq<Step> {
    OnOne(n, RefusedSteps(s, outsider, r)) + (PostSteps(r, u) + OnOne(n, DeliverySteps(s)))
  }

  lemma {:induction false} PostThenDeliver(sys: System, n: NodeId, s: Socket, u: User, r: Room) returns (sys': System)
    requires SystemOk(sys) && n in sys.nodes && s in Registry.Sockets(sys.nodes[n].reg, r)
    requires sys.nodes[n].pg.listening == {r} && sys.nodes[n].inbound == [] && sys.nodes[n].fan == Batching.Start()
    requires sys.db.rows == map[r := Sequencer.Row(1, 1, None)] && sys.db.open == map[]
    ensures Reaches(sys, PostSteps(r, u) + OnOne(n, DeliverySteps(s)), sys')
    ensures n in sys'.nodes && Batching.Handed(sys'.nodes[n].fan, s) == [Message(r, 1, u)]
  {
    var sys1 := PostHeard(sys, n, r, u);
    var node := Deliver(sys1.nodes[n], s, Message(r, 1, u));
    OnOneRun(sys1, n, DeliverySteps(s), node);
    sys' := System(sys1.db, sys1.nodes[n := node]);
    ReachesConcat(sys, PostSteps(r, u), sys1, OnOne(n, DeliverySteps(s)), sys');
  }

  lemma {:induction false} RefusedThenPost(sys: System, n: NodeId, member: Socket, u: User, s: Socket, outsider: User,
                                           r: Room)
    returns (sys': System)
    requires SystemOk(sys) && s != member && AfterJoin(sys, n, member, u, r, 0)
    ensures Reaches(sys, RefusedThen(n, u, s, outsider, r), sys')
    ensures n in sys'.nodes && Batching.Handed(sys'.nodes[n].fan, s) == [Message(r, 1, u)]
  {
    var node := RefusedRun(sys.nodes[n], member, s, outsider, r);
    OnOneRun(sys, n, RefusedSteps(s, outsider, r), node);
    var sys1 := System(sys.db, sys.nodes[n := node]);
    OneNodeOk(sys, n, node);
    sys' := PostThenDeliver(sys1, n, s, u, r);
    ReachesConcat(sys, OnOne(n, RefusedSteps(s, outsider, r)), sys1,
                  PostSteps(r, u) + OnOne(n, DeliverySteps(s)), sys');
  }

  /** Membership is checked after the registration and a refused socket stays registered: it is handed the
      room's next message like any member. */
  lemma {:induction false} RefusedStillServed(n: NodeId, member: Socket, u: User, s: Socket, outsider: User, r: Room)
    requires s != member && outsider != u
    ensures var steps := RefusedJoin(n, member, u, s, outsider, r);
            && Runnable(Initial(), steps) && n in Run(Initial(), steps).nodes
            && Batching.Handed(Run(Initial(), steps).nodes[n].fan, s) == [Message(r, 1, u)]
  {
    var sys1 := PostsThenJoinRun(n, member, u, r, 0);
    var sys := RefusedThenPost(sys1, n, member, u, s, outsider, r);
    ReachesConcat(Initial(), PostsThenJoin(n, member, u, r, 0), sys1, RefusedThen(n, u, s, outsider, r), sys);
  }

  // --- A second subscriber ---------------------------------------------------------------------------

  /** Two sockets join one after the other; the LISTEN that the first join issued has no answer yet. */
  function TwoJoinSteps(a: Socket, u: User, b: Socket, v: User, r: Room): seq<NodeStep> {
    var subscribe := Listen(ListenManager.Subscribe(r));
    [Connect(a, u), Register(a, r)] + ([subscribe] + ([Connect(b, v), Register(b, r)] + [subscribe]))
  }

  /** A node with two subscriptions for the room whose LISTEN is still queued. */
  ghost predicate StillDeaf(node: Node, r: Room) {
    && NodeOk(node)
    && ListenManager.Count(node.pg, r) == 2 && node.pg.listening == {} && node.pg.live
    && node.pg.queue == [ListenManager.Listen(r)]
    && node.inbound == [] && node.fan == Batching.Start()
  }

  lemma {:induction false} TwoJoinRun(a: Socket, u: User, b: Socket, v: User, r: Room) returns (node: Node)
    requires a != b
    ensures Leads(BootNode(), TwoJoinSteps(a, u, b, v, r), node)
    ensures StillDeaf(node, r) && Registry.Sockets(node.reg, r) == {a, b}
  {
    var subscribe := Listen(ListenManager.Subscribe(r));
    var g1 := Registry.AddToRoom(Registry.Connect(Registry.Start(), a, u), r, a);
    var g2 := Registry.AddToRoom(Registry.Connect(g1, b, v), r, b);
    var node1 := BootNode().(reg := g1);
    var node2 := ApplyNode(node1, subscribe);
    var node3 := node2.(reg := g2);
    node := ApplyNode(node3, subscribe);
    LeadsCons(node3, subscribe, [], node);
    assert [subscribe] + [] == [subscribe];
    RegisterSteps(node2, b, v, r, [subscribe], node);
    LeadsCons(node1, subscribe, [Connect(b, v), Register(b, r)] + [subscribe], node);
    RegisterSteps(BootNode(), a, u, r, [subscribe] + ([Connect(b, v), Register(b, r)] + [subscribe]), node);
    TwoSubscribes(r, node);
  }

  lemma {:induction false} TwoSubscribes(r: Room, node: Node)
    requires NodeOk(node) && node.inbound == [] && node.fan == Batching.Start()
    requires node.pg == ListenManager.DoSubscribe(ListenManager.DoSubscribe(ListenManager.Start(), r), r)
    ensures StillDeaf(node, r)
  {
    assert ListenManager.DoSubscribe(ListenManager.Start(), r).queue == [ListenManager.Listen(r)];
  }

  function TwoJoins(n: NodeId, a: Socket, u: User, b: Socket, v: User, r: Room): seq<Step> {
    OnlyDb(Posts(r, u, 0)) + ([Boot(n)] + OnOne(n, TwoJoinSteps(a, u, b, v, r)))
  }

  lemma {:induction false} TwoJoinsRun(n: NodeId, a: Socket, u: User, b: Socket, v: User, r: Room)
    returns (sys: System)
    requires a != b
    ensures Reaches(Initial(), TwoJoins(n, a, u, b, v, r), sys)
    ensures n in sys.nodes && StillDeaf(sys.nodes[n], r) && Registry.Sockets(sys.nodes[n].reg, r) == {a, b}
    ensures sys.db.rows == map[r := Sequencer.Row(1, 1, None)] && sys.db.open == map[]
    ensures InRoom(sys.db.log, r) == []
  {
    PostsRun(r, u, 0);
    OnlyDbRun(Sequencer.EMPTY_DB, Posts(r, u, 0));
    var sys0 := Run(Initial(), OnlyDb(Posts(r, u, 0)));
    ApplyOk(sys0, Boot(n));
    var sys1 := Apply(sys0, Boot(n));
    var node := TwoJoinRun(a, u, b, v, r);
    OnOneRun(sys1, n, TwoJoinSteps(a, u, b, v, r), node);
    sys := System(sys1.db, sys1.nodes[n := node]);
    ReachesCons(sys0, Boot(n), OnOne(n, TwoJoinSteps(a, u, b, v, r)), sys);
    ReachesConcat(Initial(), OnlyDb(Posts(r, u, 0)), sys0, [Boot(n)] + OnOne(n, TwoJoinSteps(a, u, b, v, r)), sys);
  }

  /** A message is posted, and then the LISTEN is answered. */
  function PostThenAnswer(n: NodeId, r: Room, u: User): seq<Step> {
    PostSteps(r, u) + OnOne(n, [Listen(ListenManager.Serve(true))])
  }

  lemma {:induction false} AnswerNode(node: Node, r: Room) returns (node': Node)
    requires StillDeaf(node, r)
    ensures Leads(node, [Listen(ListenManager.Serve(true))], node') && node' == node.(pg := node'.pg)
    ensures node'.pg.listening == {r} && node'.pg.queue == []
  {
    var serve := Listen(ListenManager.Serve(true));
    ApplyNodeOk(node, serve);
    node' := ApplyNode(node, serve);
    LeadsCons(node, serve, [], node');
    assert [serve] + [] == [serve];
  }

  lemma {:induction false} DeafRun(sys: System, n: NodeId, r: Room, u: User) returns (sys': System)
    requires SystemOk(sys) && n in sys.nodes && StillDeaf(sys.nodes[n], r)
    requires sys.db.rows == map[r := Sequencer.Row(1, 1, None)] && sys.db.open == map[]
    ensures Reaches(sys, PostThenAnswer(n, r, u), sys') && sys'.db.log == sys.db.log + [Message(r, 1, u)]
    ensures n in sys'.nodes && sys'.nodes[n] == sys.nodes[n].(pg := sys'.nodes[n].pg)
    ensures sys'.nodes[n].pg.listening == {r} && sys'.nodes[n].pg.queue == []
  {
    var sys1 := PostHeard(sys, n, r, u);
    assert sys1.nodes[n] == sys.nodes[n];
    var node := AnswerNode(sys1.nodes[n], r);
    OnOneRun(sys1, n, [Listen(ListenManager.Serve(true))], node);
    sys' := System(sys1.db, sys1.nodes[n := node]);
    ReachesConcat(sys, PostSteps(r, u), sys1, OnOne(n, [Listen(ListenManager.Serve(true))]), sys');
  }

  lemma {:induction false} Missed(sys0: System, sys1: System, n: NodeId, s: Socket, m: Message)
    requires n in sys1.nodes && InRoom(sys0.db.log, m.room) == [] && sys1.db.log == sys0.db.log + [m]
    requires sys1.nodes[n].inbound == [] && sys1.nodes[n].fan == Batching.Start()
    ensures !Seam.NoGap(sys0, sys1, n, s, m.room, 0)
  {
    InRoomConcat(sys0.db.log, [m], m.room);
    InRoomPure([m], m.room, m.room);
    assert InRoom(sys1.db.log, m.room)[0] == m;
    assert Stream(sys1.nodes[n], s, m.room) == [];
    assert m !in History.Page([], 0).messages;
  }

  /** The second of two subscribers resolves at once and reads its history page in `sys0`; a message posted
      before the first one's LISTEN is answered is neither in that page nor ever on its way, although the room
      is counted twice and listened to in the end. */
  lemma {:induction false} SecondSubscriberMisses(n: NodeId, a: Socket, u: User, b: Socket, v: User, r: Room)
    returns (sys0: System, sys1: System)
    requires a != b
    ensures Reaches(Initial(), TwoJoins(n, a, u, b, v, r), sys0) && Reaches(sys0, PostThenAnswer(n, r, u), sys1)
    ensures Seam.Registered(sys0, n, b, r) && ListenManager.Count(sys0.nodes[n].pg, r) == 2
    ensures Seam.Watching(sys1, n, b, r) && sys1.nodes[n].pg.queue == []
    ensures !Seam.NoGap(sys0, sys1, n, b, r, 0)
  {
    sys0 := TwoJoinsRun(n, a, u, b, v, r);
    sys1 := DeafRun(sys0, n, r, u);
    Missed(sys0, sys1, n, b, Message(r, 1, u));
  }
}
