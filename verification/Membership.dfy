/** What join, leave and close frames do to the registrations and the subscription count. A join awaits the
    membership query and a leave the deletion of its presence row, so each has two parts. Here the two parts
    run at once; `Frames` lets anything come in between. */
module Membership {
  import opened ChatTypes
  import ListenManager
  import Registry

  datatype State = State(pg: ListenManager.Manager, reg: Registry.Registry)

  datatype Step =
    | Join(socket: Socket, room: Room, member: bool)
    | Leave(socket: Socket, room: Room)
    | Close(socket: Socket)
    | Pg(step: ListenManager.Step)  // answers, re-listening and reconnects in between

  ghost predicate WellFormed(x: State) {
    ListenManager.WellFormed(x.pg) && Registry.WellFormed(x.reg)
  }

  function Start(): (x: State)
    ensures WellFormed(x)
  {
    State(ListenManager.Start(), Registry.Start())
  }

  /** A join up to its await: the socket is registered. */
  function JoinArrives(x: State, s: Socket, r: Room): (x': State)
    requires WellFormed(x)
    ensures WellFormed(x')
  {
    x.(reg := Registry.AddToRoom(x.reg, r, s))
  }

  /** The membership query is answered: only a member goes on to subscribe. */
  function JoinResumes(x: State, r: Room, member: bool): (x': State)
    requires WellFormed(x)
    ensures WellFormed(x')
  {
    if member then x.(pg := ListenManager.DoSubscribe(x.pg, r)) else x
  }

  /** A leave up to its await: the socket is removed, and the last one's removal unsubscribes. */
  function LeaveArrives(x: State, s: Socket, r: Room): (x': State)
    requires WellFormed(x)
    ensures WellFormed(x')
  {
    State(if Registry.Sockets(x.reg, r) == {s} then ListenManager.DoUnsubscribe(x.pg, r) else x.pg,
          Registry.RemoveFromRoom(x.reg, r, s))
  }

  /** The presence row is deleted, or that fails: in the first case the leave unsubscribes, again. */
  function LeaveResumes(x: State, r: Room, deleted: bool): (x': State)
    requires WellFormed(x)
    ensures WellFormed(x')
  {
    if deleted then x.(pg := ListenManager.DoUnsubscribe(x.pg, r)) else x
  }

  /** A join whose query is answered before anything else happens. */
  function JoinFrame(x: State, s: Socket, r: Room, member: bool): (x': State)
    requires WellFormed(x)
    ensures WellFormed(x')
  {
    JoinResumes(JoinArrives(x, s, r), r, member)
  }

  /** A leave whose deletion is answered before anything else happens. */
  function LeaveFrame(x: State, s: Socket, r: Room): (x': State)
    requires WellFormed(x)
    ensures WellFormed(x')
  {
    LeaveResumes(LeaveArrives(x, s, r), r, true)
  }

  function CloseFrame(x: State, s: Socket): (x': State)
    requires WellFormed(x)
    ensures WellFormed(x')
  {
    Registry.CleanupWellFormed(x.reg, s);
    State(Registry.UnsubscribeAll(x.pg, Registry.CleanupCalls(x.reg, s)), Registry.Cleanup(x.reg, s))
  }

  predicate Enabled(x: State, step: Step) {
    step.Pg? ==> ListenManager.Enabled(x.pg, step.step)
  }

  /** Only members join, only registered sockets leave, no command fails and no session is lost. */
  predicate Disciplined(x: State, step: Step) {
    match step
    case Join(_, _, member) => member
    case Leave(s, r) => s in Registry.Sockets(x.reg, r)
    case Close(_) => true
    case Pg(ls) => ls == ListenManager.Serve(true) || ls == ListenManager.Iterate || ls == ListenManager.Reconnect
  }

  function Apply(x: State, step: Step): (x': State)
    requires WellFormed(x) && Enabled(x, step)
    ensures WellFormed(x')
  {
    match step
    case Join(s, r, member) => JoinFrame(x, s, r, member)
    case Leave(s, r) => LeaveFrame(x, s, r)
    case Close(s) => CloseFrame(x, s)
    case Pg(ls) => x.(pg := ListenManager.Apply(x.pg, ls))
  }

  predicate Runnable(x: State, steps: seq<Step>)
    requires WellFormed(x)
    decreases |steps|
  {
    steps == [] ||
    (Enabled(x, steps[0]) && Disciplined(x, steps[0]) && Runnable(Apply(x, steps[0]), steps[1..]))
  }

  function Run(x: State, steps: seq<Step>): (x': State)
    requires WellFormed(x) && Runnable(x, steps)
    ensures WellFormed(x')
    decreases |steps|
  {
    if steps == [] then x else Run(Apply(x, steps[0]), steps[1..])
  }

  // --- Enough subscriptions ------------------------------------------------------------------------

  ghost predicate EnoughFor(x: State, r: Room) {
    |Registry.Sockets(x.reg, r)| <= ListenManager.Count(x.pg, r)
  }

  ghost predicate Enough(x: State) {
    forall r :: EnoughFor(x, r)
  }

  lemma {:induction false} UnsubscribeAllCount(m: ListenManager.Manager, rooms: seq<Room>, r: Room)
    requires ListenManager.WellFormed(m)
    ensures var times := multiset(rooms)[r];
            ListenManager.Count(Registry.UnsubscribeAll(m, rooms), r) ==
            if times <= ListenManager.Count(m, r) then ListenManager.Count(m, r) - times else 0
    decreases |rooms|
  {
    if rooms != [] {
      var front, last := rooms[..|rooms| - 1], rooms[|rooms| - 1];
      assert rooms == front + [last];
      UnsubscribeAllCount(m, front, r);
      ListenManager.UnsubscribeCounts(Registry.UnsubscribeAll(m, front), last);
    }
  }

  lemma {:induction false} UnsubscribeAllConcat(m: ListenManager.Manager, a: seq<Room>, b: seq<Room>)
    requires ListenManager.WellFormed(m)
    ensures Registry.UnsubscribeAll(m, a + b) == Registry.UnsubscribeAll(Registry.UnsubscribeAll(m, a), b)
    decreases |b|
  {
    if b == [] {
      assert a + b == a;
    } else {
      assert (a + b)[..|a + b| - 1] == a + b[..|b| - 1];
      UnsubscribeAllConcat(m, a, b[..|b| - 1]);
    }
  }

  lemma AddSockets(g: Registry.Registry, s: Socket, r: Room)
    requires Registry.WellFormed(g)
    ensures var g' := Registry.AddToRoom(g, r, s);
            && Registry.Sockets(g', r) == Registry.Sockets(g, r) + {s}
            && forall q :: q != r ==> Registry.Sockets(g', q) == Registry.Sockets(g, q)
  {
  }

  lemma {:induction false} JoinCounts(x: State, s: Socket, r: Room, member: bool, x': State)
    requires WellFormed(x) && x' == JoinFrame(x, s, r, member)
    ensures ListenManager.Count(x'.pg, r) == ListenManager.Count(x.pg, r) + (if member then 1 else 0)
    ensures Registry.Sockets(x'.reg, r) == Registry.Sockets(x.reg, r) + {s}
    ensures forall q :: q != r ==> Registry.Sockets(x'.reg, q) == Registry.Sockets(x.reg, q)
    ensures forall q :: q != r ==> ListenManager.Count(x'.pg, q) == ListenManager.Count(x.pg, q)
  {
    ListenManager.SubscribeCounts(x.pg, r);
    AddSockets(x.reg, s, r);
  }

  lemma {:induction false} LeaveCounts(x: State, s: Socket, r: Room, x': State)
    requires WellFormed(x) && x' == LeaveFrame(x, s, r)
    ensures Registry.Sockets(x'.reg, r) == Registry.Sockets(x.reg, r) - {s}
    ensures var drop := if Registry.Sockets(x.reg, r) == {s} then 2 else 1;
            ListenManager.Count(x'.pg, r) ==
            if drop <= ListenManager.Count(x.pg, r) then ListenManager.Count(x.pg, r) - drop else 0
    ensures forall q :: q != r ==> Registry.Sockets(x'.reg, q) == Registry.Sockets(x.reg, q)
    ensures forall q :: q != r ==> ListenManager.Count(x'.pg, q) == ListenManager.Count(x.pg, q)
  {
    var pg1 := if Registry.Sockets(x.reg, r) == {s} then ListenManager.DoUnsubscribe(x.pg, r) else x.pg;
    ListenManager.UnsubscribeCounts(x.pg, r);
    ListenManager.UnsubscribeCounts(pg1, r);
  }

  lemma {:induction false} CloseEnough(x: State, s: Socket)
    requires WellFormed(x) && Enough(x)
    ensures Enough(CloseFrame(x, s))
  {
    var x' := CloseFrame(x, s);
    Registry.CleanupExact(x.reg, s);
    forall r ensures EnoughFor(x', r) {
      assert EnoughFor(x, r);
      UnsubscribeAllCount(x.pg, Registry.CleanupCalls(x.reg, s), r);
      Registry.CleanupUnsubscribesOnce(x.reg, s, r);
      assert Registry.Sockets(x'.reg, r) <= Registry.Sockets(x.reg, r);
      Smaller(Registry.Sockets(x'.reg, r), Registry.Sockets(x.reg, r));
    }
  }

  lemma {:induction false} Smaller(a: set<Socket>, b: set<Socket>)
    requires a <= b
    ensures |a| <= |b|
  {
    assert b == a + (b - a);
  }

  /** A join keeps the counts sufficient exactly when it subscribes, adds no new socket, or finds a spare
      subscription: the registration comes before the membership check. */
  lemma {:induction false} JoinEnoughIff(x: State, s: Socket, r: Room, member: bool)
    requires WellFormed(x) && Enough(x)
    ensures Enough(JoinFrame(x, s, r, member)) <==>
            member || s in Registry.Sockets(x.reg, r) || |Registry.Sockets(x.reg, r)| < ListenManager.Count(x.pg, r)
  {
    var x' := JoinFrame(x, s, r, member);
    JoinCounts(x, s, r, member, x');
    assert EnoughFor(x, r);
    if s in Registry.Sockets(x.reg, r) {
      assert Registry.Sockets(x.reg, r) + {s} == Registry.Sockets(x.reg, r);
    }
    forall q | q != r ensures EnoughFor(x', q) { assert EnoughFor(x, q); }
    assert Enough(x') <==> EnoughFor(x', r);
  }

  /** A leave's own unsubscribe, whenever it comes, keeps the counts sufficient exactly when the room has no
      sockets or a spare subscription. */
  lemma {:induction false} LateUnsubscribeIff(x: State, r: Room)
    requires WellFormed(x) && Enough(x)
    ensures Enough(LeaveResumes(x, r, true)) <==>
            Registry.Sockets(x.reg, r) == {} || |Registry.Sockets(x.reg, r)| < ListenManager.Count(x.pg, r)
  {
    var x' := LeaveResumes(x, r, true);
    ListenManager.UnsubscribeCounts(x.pg, r);
    assert EnoughFor(x, r);
    forall q | q != r ensures EnoughFor(x', q) { assert EnoughFor(x, q); }
    assert Enough(x') <==> EnoughFor(x', r);
  }

  /** A leave keeps the counts sufficient exactly when the socket was registered, the room has no
      sockets, or a spare subscription pays for it. */
  lemma {:induction false} LeaveEnoughIff(x: State, s: Socket, r: Room)
    requires WellFormed(x) && Enough(x)
    ensures Enough(LeaveFrame(x, s, r)) <==>
            s in Registry.Sockets(x.reg, r) || Registry.Sockets(x.reg, r) == {} ||
            |Registry.Sockets(x.reg, r)| < ListenManager.Count(x.pg, r)
  {
    var x' := LeaveFrame(x, s, r);
    LeaveCounts(x, s, r, x');
    assert EnoughFor(x, r);
    if s !in Registry.Sockets(x.reg, r) {
      assert Registry.Sockets(x.reg, r) - {s} == Registry.Sockets(x.reg, r);
    }
    forall q | q != r ensures EnoughFor(x', q) { assert EnoughFor(x, q); }
    assert Enough(x') <==> EnoughFor(x', r);
  }

  lemma {:induction false} PgEnough(x: State, ls: ListenManager.Step)
    requires WellFormed(x) && Enough(x) && ListenManager.Enabled(x.pg, ls)
    requires Disciplined(x, Pg(ls))
    ensures Enough(Apply(x, Pg(ls)))
  {
    forall r ensures EnoughFor(Apply(x, Pg(ls)), r) {
      assert EnoughFor(x, r);
      ListenManager.CountStep(x.pg, ls, r);
    }
  }

  lemma {:induction false} UnsubscribeAllListened(m: ListenManager.Manager, rooms: seq<Room>)
    requires ListenManager.WellFormed(m) && ListenManager.Listened(m)
    ensures ListenManager.Listened(Registry.UnsubscribeAll(m, rooms))
    decreases |rooms|
  {
    if rooms != [] {
      UnsubscribeAllListened(m, rooms[..|rooms| - 1]);
      ListenManager.UnsubscribeListened(Registry.UnsubscribeAll(m, rooms[..|rooms| - 1]), rooms[|rooms| - 1]);
    }
  }

  lemma {:induction false} StepListened(x: State, step: Step)
    requires WellFormed(x) && Enabled(x, step) && Disciplined(x, step) && ListenManager.Listened(x.pg)
    ensures ListenManager.Listened(Apply(x, step).pg)
  {
    match step
    case Join(s, r, member) => ListenManager.SubscribeListened(x.pg, r);
    case Leave(s, r) =>
      ListenManager.UnsubscribeListened(x.pg, r);
      var pg1 := if Registry.Sockets(x.reg, r) == {s} then ListenManager.DoUnsubscribe(x.pg, r) else x.pg;
      ListenManager.UnsubscribeListened(pg1, r);
    case Close(s) => UnsubscribeAllListened(x.pg, Registry.CleanupCalls(x.reg, s));
    case Pg(ls) => ListenManager.StepListened(x.pg, ls);
  }

  lemma {:induction false} StepEnough(x: State, step: Step)
    requires WellFormed(x) && Enabled(x, step) && Disciplined(x, step) && Enough(x)
    ensures Enough(Apply(x, step))
  {
    match step
    case Join(s, r, member) => JoinEnoughIff(x, s, r, member);
    case Leave(s, r) => LeaveEnoughIff(x, s, r);
    case Close(s) => CloseEnough(x, s);
    case Pg(ls) => PgEnough(x, ls);
  }

  lemma {:induction false} RunEnough(x: State, steps: seq<Step>)
    requires WellFormed(x) && Runnable(x, steps) && Enough(x) && ListenManager.Listened(x.pg)
    ensures Enough(Run(x, steps)) && ListenManager.Listened(Run(x, steps).pg)
    decreases |steps|
  {
    if steps != [] {
      StepEnough(x, steps[0]);
      StepListened(x, steps[0]);
      RunEnough(Apply(x, steps[0]), steps[1..]);
    }
  }

  /** The count covers the room's sockets; a room with sockets is listened to after draining, or still
      ahead of a re-listening loop, and so by the server once nothing is queued or under way. */
  ghost predicate Served(x: State, r: Room) {
    && EnoughFor(x, r)
    && (Registry.Sockets(x.reg, r) != {} ==>
          && (r in ListenManager.Drained(x.pg) || ListenManager.Ahead(x.pg, r))
          && (x.pg.queue == [] && x.pg.loop.Idle? ==> r in x.pg.listening))
  }

  /** Registered implies listened, in every disciplined run of frames that are answered at once. */
  lemma {:induction false} RegisteredImpliesListened(steps: seq<Step>, r: Room)
    requires Runnable(Start(), steps)
    ensures Served(Run(Start(), steps), r)
  {
    assert Enough(Start());
    assert ListenManager.Listened(ListenManager.Start()) by {
      assert forall q :: ListenManager.Covered(ListenManager.Start(), q);
    }
    RunEnough(Start(), steps);
    var x := Run(Start(), steps);
    assert EnoughFor(x, r) && ListenManager.Covered(x.pg, r);
  }
}
