/** Join, leave and close frames with anything in between their two parts: a join waits for the membership
    query, a leave for the deletion of its presence row. Which interleavings keep every joined socket counted,
    and so listened for. */
module Frames {
  import opened ChatTypes
  import ListenManager
  import Registry
  import Membership

  /** `joined` holds the sockets whose join has gone on to subscribe and that have not left or closed since. */
  datatype State = State(
    chat: Membership.State,
    joining: multiset<(Socket, Room)>,  // joins awaiting the membership query
    leaving: multiset<Room>,            // leaves awaiting the deletion
    joined: set<(Socket, Room)>)

  datatype Step =
    | Connect(socket: Socket, user: User)
    | Join(socket: Socket, room: Room)
    | JoinAnswered(socket: Socket, room: Room, member: bool)
    | Leave(socket: Socket, room: Room)
    | LeaveAnswered(room: Room, deleted: bool)
    | Close(socket: Socket)
    | Pg(step: ListenManager.Step)  // answers, failures, re-listening, lost sessions and reconnects

  function Start(): (x: State)
    ensures WellFormed(x)
  {
    State(Membership.Start(), multiset{}, multiset{}, {})
  }

  ghost predicate WellFormed(x: State) {
    && Membership.WellFormed(x.chat)
    && forall p :: p in x.joined ==> p.0 in Registry.Sockets(x.chat.reg, p.1)
  }

  predicate Enabled(x: State, step: Step) {
    match step
    case Connect(s, _) => s !in x.chat.reg.userOf
    case JoinAnswered(s, r, _) => (s, r) in x.joining
    case LeaveAnswered(r, _) => r in x.leaving
    case Pg(ls) => ListenManager.Enabled(x.chat.pg, ls) && !ls.Subscribe? && !ls.Unsubscribe?
    case _ => true
  }

  function ChatAfter(x: Membership.State, step: Step): (x': Membership.State)
    requires Membership.WellFormed(x)
    requires step.Connect? ==> step.socket !in x.reg.userOf
    requires step.Pg? ==> ListenManager.Enabled(x.pg, step.step)
    ensures Membership.WellFormed(x')
  {
    match step
    case Connect(s, u) => x.(reg := Registry.Connect(x.reg, s, u))
    case Join(s, r) => Membership.JoinArrives(x, s, r)
    case JoinAnswered(_, r, member) => Membership.JoinResumes(x, r, member)
    case Leave(s, r) => Membership.LeaveArrives(x, s, r)
    case LeaveAnswered(r, deleted) => Membership.LeaveResumes(x, r, deleted)
    case Close(s) => Membership.CloseFrame(x, s)
    case Pg(ls) => x.(pg := ListenManager.Apply(x.pg, ls))
  }

  function JoinedAfter(x: State, step: Step): set<(Socket, Room)> {
    match step
    case JoinAnswered(s, r, member) =>
      if member && s in Registry.Sockets(x.chat.reg, r) then x.joined + {(s, r)} else x.joined
    case Leave(s, r) => x.joined - {(s, r)}
    case Close(s) => set p | p in x.joined && p.0 != s
    case _ => x.joined
  }

  function Apply(x: State, step: Step): State
    requires WellFormed(x) && Enabled(x, step)
  {
    State(ChatAfter(x.chat, step),
          match step
          case Join(s, r) => x.joining + multiset{(s, r)}
          case JoinAnswered(s, r, _) => x.joining - multiset{(s, r)}
          case _ => x.joining,
          match step
          case Leave(_, r) => x.leaving + multiset{r}
          case LeaveAnswered(r, _) => x.leaving - multiset{r}
          case _ => x.leaving,
          JoinedAfter(x, step))
  }

  /** What a step does to the registrations of one room. */
  lemma {:induction false} SocketsAfter(x: Membership.State, step: Step, r: Room)
    requires Membership.WellFormed(x)
    requires step.Connect? ==> step.socket !in x.reg.userOf
    requires step.Pg? ==> ListenManager.Enabled(x.pg, step.step)
    ensures Registry.Sockets(ChatAfter(x, step).reg, r) ==
            match step
            case Join(s, q) => if q == r then Registry.Sockets(x.reg, r) + {s} else Registry.Sockets(x.reg, r)
            case Leave(s, q) => if q == r then Registry.Sockets(x.reg, r) - {s} else Registry.Sockets(x.reg, r)
            case Close(s) => Registry.Sockets(x.reg, r) - {s}
            case _ => Registry.Sockets(x.reg, r)
  {
    match step
    case Connect(s, u) => Registry.ConnectExact(x.reg, s, u);
    case Join(s, q) => Membership.AddSockets(x.reg, s, q);
    case Leave(s, q) => RemoveSockets(x.reg, s, q, r);
    case Close(s) => Registry.CleanupExact(x.reg, s);
    case _ =>
  }

  lemma RemoveSockets(g: Registry.Registry, s: Socket, q: Room, r: Room)
    requires Registry.WellFormed(g)
    ensures Registry.Sockets(Registry.RemoveFromRoom(g, q, s), r) ==
            if q == r then Registry.Sockets(g, r) - {s} else Registry.Sockets(g, r)
  {
  }

  lemma {:induction false} ApplyWellFormed(x: State, step: Step)
    requires WellFormed(x) && Enabled(x, step)
    ensures WellFormed(Apply(x, step))
  {
    var x' := Apply(x, step);
    forall p | p in x'.joined ensures p.0 in Registry.Sockets(x'.chat.reg, p.1) {
      SocketsAfter(x.chat, step, p.1);
    }
  }

  ghost predicate Runnable(x: State, steps: seq<Step>)
    requires WellFormed(x)
    decreases |steps|
  {
    steps == [] ||
    (Enabled(x, steps[0]) && (ApplyWellFormed(x, steps[0]); Runnable(Apply(x, steps[0]), steps[1..])))
  }

  ghost function Run(x: State, steps: seq<Step>): (x': State)
    requires WellFormed(x) && Runnable(x, steps)
    ensures WellFormed(x')
    decreases |steps|
  {
    if steps == [] then x else (ApplyWellFormed(x, steps[0]); Run(Apply(x, steps[0]), steps[1..]))
  }

  lemma {:induction false} RunFirst(x: State, steps: seq<Step>)
    requires WellFormed(x) && Runnable(x, steps) && steps != []
    ensures Enabled(x, steps[0]) && WellFormed(Apply(x, steps[0])) && Runnable(Apply(x, steps[0]), steps[1..])
    ensures Run(x, steps) == Run(Apply(x, steps[0]), steps[1..])
  {
    ApplyWellFormed(x, steps[0]);
  }

  // --- Joined sockets and the count ----------------------------------------------------------------

  function JoinedOf(sockets: set<Socket>, joined: set<(Socket, Room)>, r: Room): set<Socket> {
    set s | s in sockets && (s, r) in joined
  }

  /** The room's joined sockets. */
  function Joined(x: State, r: Room): set<Socket> {
    JoinedOf(Registry.Sockets(x.chat.reg, r), x.joined, r)
  }

  function Count(x: State, r: Room): nat {
    ListenManager.Count(x.chat.pg, r)
  }

  /** Each joined socket has a subscription that no leave still under way will take. */
  ghost predicate Backed(x: State, r: Room) {
    Enough(Joined(x, r), Count(x, r), x.leaving[r])
  }

  /** Nobody has joined, or the count covers the joined sockets and the leaves under way. */
  ghost predicate Enough(joined: set<Socket>, count: nat, leaving: nat) {
    joined == {} || |joined| + leaving <= count
  }

  /** The calls of the leaves under way, one after the other. */
  function LetGo(x: State, r: Room, k: nat): State
    requires WellFormed(x) && k <= x.leaving[r]
    ensures WellFormed(LetGo(x, r, k))
    ensures LetGo(x, r, k).leaving[r] == x.leaving[r] - k
    ensures LetGo(x, r, k).chat.reg == x.chat.reg && LetGo(x, r, k).joined == x.joined
    ensures Count(LetGo(x, r, k), r) == if k <= Count(x, r) then Count(x, r) - k else 0
  {
    if k == 0 then x else Apply(LetGo(x, r, k - 1), LeaveAnswered(r, true))
  }

  /** The count still covers the joined sockets when `k` of the leaves have come to their unsubscribe. */
  ghost predicate Survives(x: State, r: Room, k: nat)
    requires WellFormed(x) && k <= x.leaving[r]
  {
    |Joined(LetGo(x, r, k), r)| <= Count(LetGo(x, r, k), r)
  }

  lemma {:induction false} SurvivesIff(x: State, r: Room, k: nat)
    requires WellFormed(x) && k <= x.leaving[r]
    ensures Survives(x, r, k) <==> Joined(x, r) == {} || |Joined(x, r)| + k <= Count(x, r)
  {
    assert Joined(LetGo(x, r, k), r) == Joined(x, r);
    assert Joined(x, r) != {} ==> |Joined(x, r)| > 0;
  }

  /** `Backed` is exactly what it takes: the joined sockets stay counted however many of the leaves under way
      come to their unsubscribe. */
  lemma {:induction false} BackedIffSurvives(x: State, r: Room)
    requires WellFormed(x)
    ensures Backed(x, r) <==> forall k: nat :: k <= x.leaving[r] ==> Survives(x, r, k)
  {
    forall k: nat | k <= x.leaving[r]
      ensures Survives(x, r, k) <==> Joined(x, r) == {} || |Joined(x, r)| + k <= Count(x, r)
    {
      SurvivesIff(x, r, k);
    }
    assert Survives(x, r, x.leaving[r]) <==> Backed(x, r);
  }

  /** The two steps that can leave a joined socket without a subscription: a join that goes on to subscribe
      when nobody is joined while more leaves are under way than are counted, and a leave by a socket that has
      not joined, without a spare subscription for it. */
  ghost predicate Harmful(x: State, step: Step, r: Room) {
    match step
    case JoinAnswered(s, q, member) =>
      q == r && member && s in Registry.Sockets(x.chat.reg, r) && Joined(x, r) == {} && Count(x, r) < x.leaving[r]
    case Leave(s, q) =>
      q == r && s !in Joined(x, r) && Joined(x, r) != {} && Count(x, r) <= |Joined(x, r)| + x.leaving[r]
    case _ => false
  }

  /** The step is the failure of a LISTEN or UNLISTEN for the room. */
  predicate FailsFor(x: State, step: Step, r: Room) {
    step.Pg? && ListenManager.Fails(x.chat.pg, step.step, r)
  }

  function Less(n: nat): nat {
    if n == 0 then 0 else n - 1
  }

  lemma {:induction false} CloseCount(c: Membership.State, s: Socket, r: Room)
    requires Membership.WellFormed(c)
    ensures ListenManager.Count(Membership.CloseFrame(c, s).pg, r) ==
            var count := ListenManager.Count(c.pg, r);
            if Registry.Sockets(c.reg, r) == {s} then Less(count) else count
  {
    Registry.CleanupExact(c.reg, s);
    Registry.CleanupUnsubscribesOnce(c.reg, s, r);
    Membership.UnsubscribeAllCount(c.pg, Registry.CleanupCalls(c.reg, s), r);
    if Registry.Sockets(c.reg, r) != {} {
      Registry.EmptiedIff(Registry.Sockets(c.reg, r), s);
    }
  }

  lemma {:induction false} PgCount(m: ListenManager.Manager, ls: ListenManager.Step, r: Room)
    requires ListenManager.WellFormed(m) && ListenManager.Enabled(m, ls) && !ListenManager.Fails(m, ls, r)
    requires !ls.Subscribe? && !ls.Unsubscribe?
    ensures ListenManager.Count(ListenManager.Apply(m, ls), r) == ListenManager.Count(m, r)
  {
    ListenManager.CountStep(m, ls, r);
  }

  /** What a step does to the room's count. */
  lemma {:induction false} CountAfter(c: Membership.State, step: Step, r: Room)
    requires Membership.WellFormed(c)
    requires step.Connect? ==> step.socket !in c.reg.userOf
    requires step.Pg? ==> ListenManager.Enabled(c.pg, step.step) && !ListenManager.Fails(c.pg, step.step, r)
    requires step.Pg? ==> !step.step.Subscribe? && !step.step.Unsubscribe?
    ensures var count := ListenManager.Count(c.pg, r);
            ListenManager.Count(ChatAfter(c, step).pg, r) ==
            match step
            case JoinAnswered(_, q, member) => if q == r && member then count + 1 else count
            case Leave(s, q) => if q == r && Registry.Sockets(c.reg, r) == {s} then Less(count) else count
            case LeaveAnswered(q, deleted) => if q == r && deleted then Less(count) else count
            case Close(s) => if Registry.Sockets(c.reg, r) == {s} then Less(count) else count
            case _ => count
  {
    match step
    case JoinAnswered(_, q, _) => ListenManager.SubscribeCounts(c.pg, q);
    case Leave(_, q) => ListenManager.UnsubscribeCounts(c.pg, q);
    case LeaveAnswered(q, _) => ListenManager.UnsubscribeCounts(c.pg, q);
    case Close(s) => CloseCount(c, s, r);
    case Pg(ls) => PgCount(c.pg, ls, r);
    case _ =>
  }

  /** What a step does to the room's joined sockets. */
  lemma {:induction false} JoinedStep(x: State, step: Step, r: Room)
    requires WellFormed(x) && Enabled(x, step)
    ensures Joined(Apply(x, step), r) ==
            match step
            case JoinAnswered(s, q, member) =>
              if q == r && member && s in Registry.Sockets(x.chat.reg, r) then Joined(x, r) + {s} else Joined(x, r)
            case Leave(s, q) => if q == r then Joined(x, r) - {s} else Joined(x, r)
            case Close(s) => Joined(x, r) - {s}
            case _ => Joined(x, r)
  {
    SocketsAfter(x.chat, step, r);
    JoinedSets(x, step, Registry.Sockets(ChatAfter(x.chat, step).reg, r), r);
  }

  lemma {:induction false} JoinedSets(x: State, step: Step, after: set<Socket>, r: Room)
    requires WellFormed(x)
    requires var before := Registry.Sockets(x.chat.reg, r);
             after == match step
                      case Join(s, q) => if q == r then before + {s} else before
                      case Leave(s, q) => if q == r then before - {s} else before
                      case Close(s) => before - {s}
                      case _ => before
    ensures JoinedOf(after, JoinedAfter(x, step), r) ==
            match step
            case JoinAnswered(s, q, member) =>
              if q == r && member && s in Registry.Sockets(x.chat.reg, r) then Joined(x, r) + {s} else Joined(x, r)
            case Leave(s, q) => if q == r then Joined(x, r) - {s} else Joined(x, r)
            case Close(s) => Joined(x, r) - {s}
            case _ => Joined(x, r)
  {
    forall p | p in x.joined && p.1 == r ensures p.0 in Registry.Sockets(x.chat.reg, r) {}
    match step
    case Join(s, q) => assert JoinedOf(after, x.joined, r) == Joined(x, r);
    case JoinAnswered(s, q, member) =>
    case Leave(s, q) =>
    case Close(s) =>
    case _ =>
  }

  lemma LeavingAfter(x: State, step: Step, r: Room)
    requires WellFormed(x) && Enabled(x, step)
    ensures Apply(x, step).leaving[r] ==
            match step
            case Leave(_, q) => if q == r then x.leaving[r] + 1 else x.leaving[r]
            case LeaveAnswered(q, _) => if q == r then x.leaving[r] - 1 else x.leaving[r]
            case _ => x.leaving[r]
  {
  }

  lemma {:induction false} WithoutOne(joined: set<Socket>, s: Socket)
    ensures |joined - {s}| == |joined| - (if s in joined then 1 else 0)
    ensures |joined + {s}| == |joined| + (if s in joined then 0 else 1)
  {
    if s in joined {
      assert joined + {s} == joined;
    } else {
      assert joined - {s} == joined;
    }
  }

  lemma AloneJoined(x: State, s: Socket, r: Room)
    ensures Registry.Sockets(x.chat.reg, r) == {s} ==> Joined(x, r) - {s} == {}
    ensures Joined(x, r) <= Registry.Sockets(x.chat.reg, r)
  {
  }

  lemma {:induction false} EnoughJoin(joined: set<Socket>, count: nat, leaving: nat, s: Socket)
    requires Enough(joined, count, leaving)
    ensures Enough(joined + {s}, count + 1, leaving) <==> !(joined == {} && count < leaving)
    ensures Enough(joined, count + 1, leaving)
  {
    WithoutOne(joined, s);
  }

  lemma {:induction false} EnoughLeave(joined: set<Socket>, count: nat, leaving: nat, s: Socket)
    requires Enough(joined, count, leaving)
    ensures Enough(joined - {s}, count, leaving + 1) <==>
            !(s !in joined && joined != {} && count <= |joined| + leaving)
    ensures Enough(joined - {s}, count, leaving)
    ensures leaving > 0 ==> Enough(joined, Less(count), leaving - 1) && Enough(joined, count, leaving - 1)
  {
    WithoutOne(joined, s);
    if joined - {s} == {} && s !in joined {
      assert joined == {};
    }
  }

  /** Exactly which steps leave a joined socket unbacked. */
  lemma {:induction false} StepBackedIff(x: State, step: Step, r: Room)
    requires WellFormed(x) && Enabled(x, step) && Backed(x, r) && !FailsFor(x, step, r)
    ensures Backed(Apply(x, step), r) <==> !Harmful(x, step, r)
  {
    JoinedStep(x, step, r);
    CountAfter(x.chat, step, r);
    LeavingAfter(x, step, r);
    match step
    case JoinAnswered(s, q, _) => EnoughJoin(Joined(x, r), Count(x, r), x.leaving[r], s);
    case Leave(s, q) =>
      AloneJoined(x, s, r);
      EnoughLeave(Joined(x, r), Count(x, r), x.leaving[r], s);
    case LeaveAnswered(_, _) => EnoughLeave(Joined(x, r), Count(x, r), x.leaving[r], Socket(0));
    case Close(s) =>
      AloneJoined(x, s, r);
      EnoughLeave(Joined(x, r), Count(x, r), x.leaving[r], s);
    case _ =>
  }

  // --- Runs ------------------------------------------------------------------------------------------

  /** No LISTEN or UNLISTEN for the room fails in the run. */
  ghost predicate Spared(x: State, steps: seq<Step>, r: Room)
    requires WellFormed(x) && Runnable(x, steps)
    decreases |steps|
  {
    steps == [] ||
    (&& !FailsFor(x, steps[0], r)
     && (ApplyWellFormed(x, steps[0]); Spared(Apply(x, steps[0]), steps[1..], r)))
  }

  ghost predicate Harmless(x: State, steps: seq<Step>, r: Room)
    requires WellFormed(x) && Runnable(x, steps)
    decreases |steps|
  {
    steps == [] ||
    (&& !Harmful(x, steps[0], r)
     && (ApplyWellFormed(x, steps[0]); Harmless(Apply(x, steps[0]), steps[1..], r)))
  }

  ghost predicate BackedThroughout(x: State, steps: seq<Step>, r: Room)
    requires WellFormed(x) && Runnable(x, steps)
    decreases |steps|
  {
    && Backed(x, r)
    && (steps == [] ||
        (ApplyWellFormed(x, steps[0]); BackedThroughout(Apply(x, steps[0]), steps[1..], r)))
  }

  lemma {:induction false} BackedRun(x: State, steps: seq<Step>, r: Room)
    requires WellFormed(x) && Runnable(x, steps) && Spared(x, steps, r) && Backed(x, r)
    ensures BackedThroughout(x, steps, r) <==> Harmless(x, steps, r)
    ensures Harmless(x, steps, r) ==> Backed(Run(x, steps), r)
    decreases |steps|
  {
    if steps != [] {
      RunFirst(x, steps);
      StepBackedIff(x, steps[0], r);
      var x1 := Apply(x, steps[0]);
      if Harmful(x, steps[0], r) {
        assert !Backed(x1, r);
        assert !BackedThroughout(x1, steps[1..], r);
      } else {
        BackedRun(x1, steps[1..], r);
      }
    }
  }

  /** Over every interleaving of frames, answers and closes, by members or not, on which no LISTEN or UNLISTEN
      for the room fails: every joined socket is backed in every state exactly when no harmful step is taken. */
  lemma {:induction false} BackedIffHarmless(steps: seq<Step>, r: Room)
    requires Runnable(Start(), steps) && Spared(Start(), steps, r)
    ensures BackedThroughout(Start(), steps, r) <==> Harmless(Start(), steps, r)
  {
    BackedRun(Start(), steps, r);
  }

  // --- Joined implies listened -----------------------------------------------------------------------

  predicate FailureFree(steps: seq<Step>) {
    forall i :: 0 <= i < |steps| ==>
      steps[i] != Pg(ListenManager.Serve(false)) && steps[i] != Pg(ListenManager.SessionLost)
  }

  lemma {:induction false} StepListened(x: State, step: Step)
    requires WellFormed(x) && Enabled(x, step) && ListenManager.Listened(x.chat.pg)
    requires step != Pg(ListenManager.Serve(false)) && step != Pg(ListenManager.SessionLost)
    ensures ListenManager.Listened(Apply(x, step).chat.pg)
  {
    match step
    case JoinAnswered(_, r, member) => ListenManager.SubscribeListened(x.chat.pg, r);
    case Leave(_, r) => ListenManager.UnsubscribeListened(x.chat.pg, r);
    case LeaveAnswered(r, _) => ListenManager.UnsubscribeListened(x.chat.pg, r);
    case Close(s) => Membership.UnsubscribeAllListened(x.chat.pg, Registry.CleanupCalls(x.chat.reg, s));
    case Pg(ls) => ListenManager.StepListened(x.chat.pg, ls);
    case _ =>
  }

  lemma {:induction false} ListenedRun(x: State, steps: seq<Step>, r: Room)
    requires WellFormed(x) && Runnable(x, steps) && FailureFree(steps) && ListenManager.Listened(x.chat.pg)
    ensures ListenManager.Listened(Run(x, steps).chat.pg) && Spared(x, steps, r)
    decreases |steps|
  {
    if steps != [] {
      RunFirst(x, steps);
      FailureFreeFirst(steps);
      NothingFails(x, steps[0], r);
      StepListened(x, steps[0]);
      ListenedRun(Apply(x, steps[0]), steps[1..], r);
    }
  }

  lemma {:induction false} FailureFreeFirst(steps: seq<Step>)
    requires FailureFree(steps) && steps != []
    ensures steps[0] != Pg(ListenManager.Serve(false)) && steps[0] != Pg(ListenManager.SessionLost)
    ensures FailureFree(steps[1..])
  {
    assert forall i :: 0 <= i < |steps[1..]| ==> steps[1..][i] == steps[i + 1];
  }

  lemma NothingFails(x: State, step: Step, r: Room)
    requires step != Pg(ListenManager.Serve(false))
    ensures !FailsFor(x, step, r)
  {
  }

  /** The count covers the joined sockets; a room with one is listened to after draining, or still ahead of a
      re-listening loop, and so by the server once nothing is queued or under way. */
  ghost predicate Served(x: State, r: Room) {
    && |Joined(x, r)| <= Count(x, r)
    && (Joined(x, r) != {} ==>
          && (r in ListenManager.Drained(x.chat.pg) || ListenManager.Ahead(x.chat.pg, r))
          && (x.chat.pg.queue == [] && x.chat.pg.loop.Idle? ==> r in x.chat.pg.listening))
  }

  /** Joined implies listened, in every failure-free run without a harmful step, whatever comes between the
      parts of the frames. */
  lemma {:induction false} JoinedImpliesListened(steps: seq<Step>, r: Room)
    requires Runnable(Start(), steps) && FailureFree(steps) && Harmless(Start(), steps, r)
    ensures Served(Run(Start(), steps), r)
  {
    assert ListenManager.Listened(ListenManager.Start()) by {
      assert forall q :: ListenManager.Covered(ListenManager.Start(), q);
    }
    ListenedRun(Start(), steps, r);
    BackedRun(Start(), steps, r);
    assert ListenManager.Covered(Run(Start(), steps).chat.pg, r);
  }

  /** In a run in which no join is refused, a registered socket has joined unless its join is still waiting for
      its answer. */
  ghost predicate JoinedOrWaiting(x: State) {
    forall s, r :: s in Registry.Sockets(x.chat.reg, r) ==> (s, r) in x.joined || (s, r) in x.joining
  }

  lemma {:induction false} StepJoinedOrWaiting(x: State, step: Step)
    requires WellFormed(x) && Enabled(x, step) && JoinedOrWaiting(x)
    requires step.JoinAnswered? ==> step.member
    ensures JoinedOrWaiting(Apply(x, step))
  {
    var x' := Apply(x, step);
    forall s, r | s in Registry.Sockets(x'.chat.reg, r) ensures (s, r) in x'.joined || (s, r) in x'.joining {
      SocketsAfter(x.chat, step, r);
      StaysJoinedOrWaiting(x, step, Registry.Sockets(x.chat.reg, r), s, r);
    }
  }

  lemma StaysJoinedOrWaiting(x: State, step: Step, before: set<Socket>, s: Socket, r: Room)
    requires WellFormed(x) && Enabled(x, step) && before == Registry.Sockets(x.chat.reg, r)
    requires s in before ==> (s, r) in x.joined || (s, r) in x.joining
    requires step.JoinAnswered? ==> step.member
    requires s in match step
                  case Join(c, q) => if q == r then before + {c} else before
                  case Leave(c, q) => if q == r then before - {c} else before
                  case Close(c) => before - {c}
                  case _ => before
    ensures (s, r) in Apply(x, step).joined || (s, r) in Apply(x, step).joining
  {
  }

  lemma {:induction false} RunJoinedOrWaiting(x: State, steps: seq<Step>)
    requires WellFormed(x) && Runnable(x, steps) && JoinedOrWaiting(x)
    requires forall s, r :: JoinAnswered(s, r, false) !in steps
    ensures JoinedOrWaiting(Run(x, steps))
    decreases |steps|
  {
    if steps != [] {
      RunFirst(x, steps);
      assert steps[0] in steps;
      StepJoinedOrWaiting(x, steps[0]);
      assert forall step :: step in steps[1..] ==> step in steps;
      RunJoinedOrWaiting(Apply(x, steps[0]), steps[1..]);
    }
  }

  /** Registered implies listened, among members: without a refused join, a failure or a harmful step, a
      registered socket whose joins are all answered is counted, and listened for once nothing is queued. */
  lemma {:induction false} RegisteredImpliesListened(steps: seq<Step>, s: Socket, r: Room)
    requires Runnable(Start(), steps) && FailureFree(steps) && Harmless(Start(), steps, r)
    requires forall c, q :: JoinAnswered(c, q, false) !in steps
    requires s in Registry.Sockets(Run(Start(), steps).chat.reg, r) && (s, r) !in Run(Start(), steps).joining
    ensures s in Joined(Run(Start(), steps), r) && Served(Run(Start(), steps), r)
  {
    RunJoinedOrWaiting(Start(), steps);
    JoinedImpliesListened(steps, r);
  }

  // --- What can come next --------------------------------------------------------------------------

  /** The join frames of a socket for a room, less the answers to them. */
  function JoinDue(step: Step, s: Socket, r: Room): int {
    match step
    case Join(c, q) => if c == s && q == r then 1 else 0
    case JoinAnswered(c, q, _) => if c == s && q == r then -1 else 0
    case _ => 0
  }

  function JoinsDue(steps: seq<Step>, s: Socket, r: Room): int {
    if steps == [] then 0 else JoinDue(steps[0], s, r) + JoinsDue(steps[1..], s, r)
  }

  /** The leave frames for a room, less the answers to them. */
  function LeaveDue(step: Step, r: Room): int {
    match step
    case Leave(_, q) => if q == r then 1 else 0
    case LeaveAnswered(q, _) => if q == r then -1 else 0
    case _ => 0
  }

  function LeavesDue(steps: seq<Step>, r: Room): int {
    if steps == [] then 0 else LeaveDue(steps[0], r) + LeavesDue(steps[1..], r)
  }

  lemma DueStep(x: State, step: Step, s: Socket, r: Room)
    requires WellFormed(x) && Enabled(x, step)
    ensures Apply(x, step).joining[(s, r)] == x.joining[(s, r)] + JoinDue(step, s, r)
    ensures Apply(x, step).leaving[r] == x.leaving[r] + LeaveDue(step, r)
  {
  }

  lemma {:induction false} DueFrom(x: State, steps: seq<Step>, s: Socket, r: Room)
    requires WellFormed(x) && Runnable(x, steps)
    ensures Run(x, steps).joining[(s, r)] == x.joining[(s, r)] + JoinsDue(steps, s, r)
    ensures Run(x, steps).leaving[r] == x.leaving[r] + LeavesDue(steps, r)
    decreases |steps|
  {
    if steps != [] {
      RunFirst(x, steps);
      DueStep(x, steps[0], s, r);
      DueFrom(Apply(x, steps[0]), steps[1..], s, r);
    }
  }

  /** What can come next, from the steps alone. In every run a join or a leave is answered exactly as long as more
      of them have been sent than answered; frames can always come; and so can whatever the client can do. */
  lemma {:induction false} AnswersPossibleIff(steps: seq<Step>, s: Socket, r: Room, ls: ListenManager.Step)
    requires Runnable(Start(), steps)
    ensures var x := Run(Start(), steps);
            && (forall member :: Enabled(x, JoinAnswered(s, r, member)) <==> JoinsDue(steps, s, r) > 0)
            && (forall deleted :: Enabled(x, LeaveAnswered(r, deleted)) <==> LeavesDue(steps, r) > 0)
            && Enabled(x, Join(s, r)) && Enabled(x, Leave(s, r)) && Enabled(x, Close(s))
            && (ls.Serve? || ls.Iterate? || ls.SessionLost? || ls.Reconnect? ==>
                  (Enabled(x, Pg(ls)) <==> ListenManager.Enabled(x.chat.pg, ls)))
  {
    DueFrom(Start(), steps, s, r);
    Possible(Run(Start(), steps), s, r, ls);
  }

  lemma Possible(x: State, s: Socket, r: Room, ls: ListenManager.Step)
    requires WellFormed(x)
    ensures forall member :: Enabled(x, JoinAnswered(s, r, member)) <==> x.joining[(s, r)] > 0
    ensures forall deleted :: Enabled(x, LeaveAnswered(r, deleted)) <==> x.leaving[r] > 0
    ensures Enabled(x, Join(s, r)) && Enabled(x, Leave(s, r)) && Enabled(x, Close(s))
    ensures ls.Serve? || ls.Iterate? || ls.SessionLost? || ls.Reconnect? ==>
              (Enabled(x, Pg(ls)) <==> ListenManager.Enabled(x.chat.pg, ls))
  {
  }

  // --- Where it fails --------------------------------------------------------------------------------

  /** What one room of a node looks like. */
  datatype View = View(sockets: set<Socket>, joined: set<Socket>, waiting: multiset<(Socket, Room)>, count: nat,
                       leaving: nat, queue: seq<ListenManager.Command>, listening: set<Room>)

  ghost predicate Looks(x: State, r: Room, v: View) {
    && WellFormed(x) && x.chat.pg.live && x.chat.pg.loop.Idle?
    && Registry.Sockets(x.chat.reg, r) == v.sockets && Joined(x, r) == v.joined && x.joining == v.waiting
    && Count(x, r) == v.count && x.leaving[r] == v.leaving
    && x.chat.pg.queue == v.queue && x.chat.pg.listening == v.listening
  }

  /** The view after one step of a member's join, a leave, a leave's unsubscribe or an answer. */
  function ViewAfter(v: View, step: Step, r: Room): View {
    match step
    case Join(s, _) => v.(sockets := v.sockets + {s}, waiting := v.waiting + multiset{(s, r)})
    case JoinAnswered(s, _, _) =>
      v.(joined := v.joined + {s}, waiting := v.waiting - multiset{(s, r)}, count := v.count + 1,
         queue := if v.count == 0 then v.queue + [ListenManager.Listen(r)] else v.queue)
    case Leave(s, _) =>
      var last := v.sockets == {s} && v.count == 1;
      v.(sockets := v.sockets - {s}, joined := v.joined - {s}, leaving := v.leaving + 1,
         count := if last then 0 else v.count, queue := if last then v.queue + [ListenManager.Unlisten(r)] else v.queue)
    case LeaveAnswered(_, _) =>
      v.(leaving := Less(v.leaving), count := Less(v.count),
         queue := if v.count == 1 then v.queue + [ListenManager.Unlisten(r)] else v.queue)
    case _ =>
      if v.queue == [] then v
      else v.(queue := v.queue[1..], listening := ListenManager.Obey(v.listening, v.queue[0]))
  }

  /** The view describes the step. */
  predicate Fits(v: View, step: Step, r: Room) {
    match step
    case Join(_, q) => q == r
    case JoinAnswered(s, q, member) => q == r && member && s in v.sockets && (s, r) in v.waiting
    case Leave(s, q) => q == r && (v.sockets == {s} ==> v.count == 1)
    case LeaveAnswered(q, deleted) => q == r && deleted && v.leaving > 0
    case Pg(ls) => ls == ListenManager.Serve(true) && v.queue != []
    case _ => false
  }

  lemma {:induction false} StepLooks(x: State, step: Step, r: Room, v: View)
    requires Looks(x, r, v) && Fits(v, step, r)
    ensures Enabled(x, step) && Looks(Apply(x, step), r, ViewAfter(v, step, r))
  {
    ApplyWellFormed(x, step);
    SocketsAfter(x.chat, step, r);
    JoinedStep(x, step, r);
    LeavingAfter(x, step, r);
    QueueLooks(x, step, r, v);
  }

  lemma {:induction false} QueueLooks(x: State, step: Step, r: Room, v: View)
    requires Looks(x, r, v) && Fits(v, step, r) && Enabled(x, step)
    ensures var pg, v' := Apply(x, step).chat.pg, ViewAfter(v, step, r);
            && pg.live && pg.loop.Idle? && pg.queue == v'.queue && pg.listening == v'.listening
            && ListenManager.Count(pg, r) == v'.count
  {
    match step
    case JoinAnswered(_, _, _) => SubscribeLooks(x.chat.pg, r);
    case Leave(s, _) => if v.sockets == {s} { UnsubscribeLooks(x.chat.pg, r); }
    case LeaveAnswered(_, _) => UnsubscribeLooks(x.chat.pg, r);
    case _ =>
  }

  lemma SubscribeLooks(m: ListenManager.Manager, r: Room)
    requires ListenManager.WellFormed(m)
    ensures var m', n := ListenManager.DoSubscribe(m, r), ListenManager.Count(m, r);
            && m'.live == m.live && m'.loop == m.loop && m'.listening == m.listening
            && m'.queue == (if n == 0 then m.queue + [ListenManager.Listen(r)] else m.queue)
            && ListenManager.Count(m', r) == n + 1
  {
  }

  lemma UnsubscribeLooks(m: ListenManager.Manager, r: Room)
    requires ListenManager.WellFormed(m)
    ensures var m', n := ListenManager.DoUnsubscribe(m, r), ListenManager.Count(m, r);
            && m'.live == m.live && m'.loop == m.loop && m'.listening == m.listening
            && m'.queue == (if n == 1 then m.queue + [ListenManager.Unlisten(r)] else m.queue)
            && ListenManager.Count(m', r) == Less(n)
  {
  }

  function Views(v: View, steps: seq<Step>, r: Room): View
    decreases |steps|
  {
    if steps == [] then v else Views(ViewAfter(v, steps[0], r), steps[1..], r)
  }

  predicate AllFit(v: View, steps: seq<Step>, r: Room)
    decreases |steps|
  {
    steps == [] || (Fits(v, steps[0], r) && AllFit(ViewAfter(v, steps[0], r), steps[1..], r))
  }

  lemma {:induction false} RunLooks(x: State, steps: seq<Step>, r: Room, v: View)
    requires Looks(x, r, v) && AllFit(v, steps, r)
    ensures Runnable(x, steps) && Looks(Run(x, steps), r, Views(v, steps, r))
    decreases |steps|
  {
    if steps != [] {
      StepLooks(x, steps[0], r, v);
      RunLooks(Apply(x, steps[0]), steps[1..], r, ViewAfter(v, steps[0], r));
    }
  }

  ghost predicate Shows(v: View, steps: seq<Step>, r: Room, end: View) {
    AllFit(v, steps, r) && Views(v, steps, r) == end
  }

  /** Step number k of a history, from the view before it. */
  lemma {:induction false} ShowsFrom(v: View, steps: seq<Step>, k: nat, r: Room, v': View, end: View)
    requires k < |steps| && Fits(v, steps[k], r) && ViewAfter(v, steps[k], r) == v'
    requires Shows(v', steps[k + 1..], r, end)
    ensures Shows(v, steps[k..], r, end)
  {
    assert steps[k..][1..] == steps[k + 1..];
  }

  const NOBODY := View({}, {}, multiset{}, 0, 0, [], {})

  lemma {:induction false} ShowsRun(steps: seq<Step>, r: Room, end: View)
    requires Shows(NOBODY, steps, r, end)
    ensures Runnable(Start(), steps) && Looks(Run(Start(), steps), r, end)
  {
    assert Looks(Start(), r, NOBODY);
    RunLooks(Start(), steps, r, NOBODY);
  }

  /** A history that begins with a socket joining alone. */
  lemma {:induction false} FirstJoin(steps: seq<Step>, a: Socket, r: Room, end: View)
    requires |steps| >= 3 && steps[0] == Join(a, r) && steps[1] == JoinAnswered(a, r, true)
    requires steps[2] == Pg(ListenManager.Serve(true))
    requires Shows(View({a}, {a}, multiset{}, 1, 0, [], {r}), steps[3..], r, end)
    ensures Shows(NOBODY, steps, r, end)
  {
    var v1 := View({a}, {}, multiset{(a, r)}, 0, 0, [], {});
    var v2 := View({a}, {a}, multiset{}, 1, 0, [ListenManager.Listen(r)], {});
    ShowsFrom(v2, steps, 2, r, View({a}, {a}, multiset{}, 1, 0, [], {r}), end);
    assert ViewAfter(v1, steps[1], r).queue == v2.queue;
    ShowsFrom(v1, steps, 1, r, v2, end);
    assert ViewAfter(NOBODY, steps[0], r) == v1;
    ShowsFrom(NOBODY, steps, 0, r, v1, end);
    assert steps[0..] == steps;
  }

  /** A leave empties the room, another member joins, and only then comes the leave's own unsubscribe: the
      new member has fully joined, nothing has failed, and it hears nothing. */
  lemma {:induction false} LateUnsubscribe(a: Socket, b: Socket, r: Room)
    requires a != b
    ensures var serve := Pg(ListenManager.Serve(true));
            var steps := [Join(a, r), JoinAnswered(a, r, true), serve, Leave(a, r), Join(b, r),
                          JoinAnswered(b, r, true), LeaveAnswered(r, true), serve, serve, serve];
            Runnable(Start(), steps) && Looks(Run(Start(), steps), r, View({b}, {b}, multiset{}, 0, 0, [], {}))
  {
    var serve := Pg(ListenManager.Serve(true));
    var steps := [Join(a, r), JoinAnswered(a, r, true), serve, Leave(a, r), Join(b, r),
                  JoinAnswered(b, r, true), LeaveAnswered(r, true), serve, serve, serve];
    var end := View({b}, {b}, multiset{}, 0, 0, [], {});
    ServeThree(steps, b, r, end);
    LeaveThenJoin(steps, a, b, r, end);
    FirstJoin(steps, a, r, end);
    ShowsRun(steps, r, end);
  }

  lemma {:induction false} LeaveThenJoin(steps: seq<Step>, a: Socket, b: Socket, r: Room, end: View)
    requires a != b && |steps| == 10 && steps[3] == Leave(a, r) && steps[4] == Join(b, r)
    requires steps[5] == JoinAnswered(b, r, true) && steps[6] == LeaveAnswered(r, true)
    requires var u, l := ListenManager.Unlisten(r), ListenManager.Listen(r);
             Shows(View({b}, {b}, multiset{}, 0, 0, [u, l, u], {r}), steps[7..], r, end)
    ensures Shows(View({a}, {a}, multiset{}, 1, 0, [], {r}), steps[3..], r, end)
  {
    var u, l := ListenManager.Unlisten(r), ListenManager.Listen(r);
    var v4 := View({}, {}, multiset{}, 0, 1, [u], {r});
    var v5 := View({b}, {}, multiset{(b, r)}, 0, 1, [u], {r});
    var v6 := View({b}, {b}, multiset{}, 1, 1, [u, l], {r});
    ShowsFrom(v6, steps, 6, r, View({b}, {b}, multiset{}, 0, 0, [u, l, u], {r}), end);
    ShowsFrom(v5, steps, 5, r, v6, end);
    ShowsFrom(v4, steps, 4, r, v5, end);
    ShowsFrom(View({a}, {a}, multiset{}, 1, 0, [], {r}), steps, 3, r, v4, end);
  }

  lemma {:induction false} ServeThree(steps: seq<Step>, b: Socket, r: Room, end: View)
    requires |steps| == 10 && steps[7] == steps[8] == steps[9] == Pg(ListenManager.Serve(true))
    requires end == View({b}, {b}, multiset{}, 0, 0, [], {})
    ensures var u, l := ListenManager.Unlisten(r), ListenManager.Listen(r);
            Shows(View({b}, {b}, multiset{}, 0, 0, [u, l, u], {r}), steps[7..], r, end)
  {
    var u, l := ListenManager.Unlisten(r), ListenManager.Listen(r);
    var v7 := View({b}, {b}, multiset{}, 0, 0, [u, l, u], {r});
    var v8 := View({b}, {b}, multiset{}, 0, 0, [l, u], {});
    var v9 := View({b}, {b}, multiset{}, 0, 0, [u], {r});
    assert [u, l, u][1..] == [l, u] && [l, u][1..] == [u] && [u][1..] == [];
    assert steps[10..] == [];
    ShowsFrom(v9, steps, 9, r, end, end);
    ShowsFrom(v8, steps, 8, r, v9, end);
    ShowsFrom(v7, steps, 7, r, v8, end);
  }

  /** A leave that overtakes the same socket's join takes another member's subscription, until the join is
      answered. */
  lemma {:induction false} EarlyLeave(a: Socket, b: Socket, r: Room)
    requires a != b
    ensures var serve := Pg(ListenManager.Serve(true));
            var steps := [Join(a, r), JoinAnswered(a, r, true), serve, Join(b, r), Leave(b, r),
                          LeaveAnswered(r, true), serve];
            Runnable(Start(), steps) && Looks(Run(Start(), steps), r, View({a}, {a}, multiset{(b, r)}, 0, 0, [], {}))
  {
    var serve := Pg(ListenManager.Serve(true));
    var steps := [Join(a, r), JoinAnswered(a, r, true), serve, Join(b, r), Leave(b, r),
                  LeaveAnswered(r, true), serve];
    var end := View({a}, {a}, multiset{(b, r)}, 0, 0, [], {});
    JoinThenLeave(steps, a, b, r, end);
    FirstJoin(steps, a, r, end);
    ShowsRun(steps, r, end);
  }

  lemma {:induction false} JoinThenLeave(steps: seq<Step>, a: Socket, b: Socket, r: Room, end: View)
    requires a != b && |steps| == 7 && steps[3] == Join(b, r) && steps[4] == Leave(b, r)
    requires steps[5] == LeaveAnswered(r, true) && steps[6] == Pg(ListenManager.Serve(true))
    requires end == View({a}, {a}, multiset{(b, r)}, 0, 0, [], {})
    ensures Shows(View({a}, {a}, multiset{}, 1, 0, [], {r}), steps[3..], r, end)
  {
    var u := ListenManager.Unlisten(r);
    var v4 := View({a, b}, {a}, multiset{(b, r)}, 1, 0, [], {r});
    var v5 := View({a}, {a}, multiset{(b, r)}, 1, 1, [], {r});
    var v6 := View({a}, {a}, multiset{(b, r)}, 0, 0, [u], {r});
    assert steps[7..] == [] && [u][1..] == [];
    ShowsFrom(v6, steps, 6, r, end, end);
    ShowsFrom(v5, steps, 5, r, v6, end);
    ShowsFrom(v4, steps, 4, r, v5, end);
    ShowsFrom(View({a}, {a}, multiset{}, 1, 0, [], {r}), steps, 3, r, v4, end);
  }
}
