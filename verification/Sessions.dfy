/** One node's frames inside the whole system: what keeps the seam of a joined socket closed, from the frames the
    node receives and nothing else. */
module Sessions {
  import opened ChatTypes
  import opened Pipeline
  import ListenManager
  import Frames
  import Seam

  /** A frame part or an answer on the node, or anything else in the system. */
  datatype Event = Frame(frame: Frames.Step) | Rest(step: Step)

  /** The system and, for the node, which frames are waiting for their second part. */
  datatype State = State(sys: System, x: Frames.State)

  /** The node's own step for a frame part; a refused join and a failed leave have no effect. */
  function NodeStepOf(f: Frames.Step): Option<NodeStep> {
    match f
    case Connect(s, u) => Some(Connect(s, u))
    case Join(s, r) => Some(Register(s, r))
    case JoinAnswered(_, r, member) => if member then Some(Listen(ListenManager.Subscribe(r))) else None
    case Leave(s, r) => Some(Leave(s, r))
    case LeaveAnswered(r, deleted) => if deleted then Some(Listen(ListenManager.Unsubscribe(r))) else None
    case Close(s) => Some(Close(s))
    case Pg(ls) => Some(Listen(ls))
  }

  /** Everything but the node's frames, its listen client and its registrations. */
  predicate Outside(step: Step, n: NodeId) {
    step.OnNode? && step.node == n ==>
      match step.nodeStep
      case LoseTail(_) => true
      case Dispatch => true
      case FlushTimer(_) => true
      case Immediate(_) => true
      case Destroy => true
      case _ => false
  }

  function StepOf(e: Event, n: NodeId): Option<Step> {
    match e
    case Rest(step) => Some(step)
    case Frame(f) => match NodeStepOf(f) case None => None case Some(ns) => Some(OnNode(n, ns))
  }

  ghost predicate WellFormed(b: State, n: NodeId) {
    && SystemOk(b.sys) && Frames.WellFormed(b.x)
    && n in b.sys.nodes && b.sys.nodes[n].pg == b.x.chat.pg && b.sys.nodes[n].reg == b.x.chat.reg
  }

  ghost predicate EnabledAt(b: State, e: Event, n: NodeId) {
    match e
    case Frame(f) => Frames.Enabled(b.x, f)
    case Rest(step) => Outside(step, n) && Enabled(b.sys, step)
  }

  lemma {:induction false} FrameStep(node: Node, x: Frames.State, f: Frames.Step)
    requires NodeOk(node) && Frames.WellFormed(x) && Frames.Enabled(x, f)
    requires node.pg == x.chat.pg && node.reg == x.chat.reg
    ensures match NodeStepOf(f)
            case None => Frames.Apply(x, f).chat == x.chat
            case Some(ns) =>
              && NodeEnabled(node, ns)
              && ApplyNode(node, ns).pg == Frames.Apply(x, f).chat.pg
              && ApplyNode(node, ns).reg == Frames.Apply(x, f).chat.reg
  {
  }

  ghost function ApplyAt(b: State, e: Event, n: NodeId): State
    requires WellFormed(b, n) && EnabledAt(b, e, n)
  {
    match e
    case Rest(step) => b.(sys := Apply(b.sys, step))
    case Frame(f) =>
      FrameStep(b.sys.nodes[n], b.x, f);
      State(match NodeStepOf(f) case None => b.sys case Some(ns) => Apply(b.sys, OnNode(n, ns)), Frames.Apply(b.x, f))
  }

  lemma {:induction false} RestStep(b: State, step: Step, n: NodeId)
    requires WellFormed(b, n) && EnabledAt(b, Rest(step), n)
    ensures WellFormed(ApplyAt(b, Rest(step), n), n)
  {
    ApplyOk(b.sys, step);
    var sys' := Apply(b.sys, step);
    assert n in sys'.nodes && sys'.nodes[n].pg == b.sys.nodes[n].pg && sys'.nodes[n].reg == b.sys.nodes[n].reg;
  }

  lemma {:induction false} ApplyAtOk(b: State, e: Event, n: NodeId)
    requires WellFormed(b, n) && EnabledAt(b, e, n)
    ensures WellFormed(ApplyAt(b, e, n), n)
  {
    match e
    case Rest(step) => RestStep(b, step, n);
    case Frame(f) =>
      Frames.ApplyWellFormed(b.x, f);
      FrameStep(b.sys.nodes[n], b.x, f);
      if NodeStepOf(f).Some? {
        ApplyOk(b.sys, OnNode(n, NodeStepOf(f).value));
      }
  }

  ghost predicate RunnableAt(b: State, events: seq<Event>, n: NodeId)
    requires WellFormed(b, n)
    decreases |events|
  {
    events == [] ||
    (EnabledAt(b, events[0], n) && (ApplyAtOk(b, events[0], n); RunnableAt(ApplyAt(b, events[0], n), events[1..], n)))
  }

  ghost function RunAt(b: State, events: seq<Event>, n: NodeId): (b': State)
    requires WellFormed(b, n) && RunnableAt(b, events, n)
    ensures WellFormed(b', n)
    decreases |events|
  {
    if events == [] then b else (ApplyAtOk(b, events[0], n); RunAt(ApplyAt(b, events[0], n), events[1..], n))
  }

  lemma {:induction false} RunAtFirst(b: State, events: seq<Event>, n: NodeId)
    requires WellFormed(b, n) && RunnableAt(b, events, n) && events != []
    ensures EnabledAt(b, events[0], n) && WellFormed(ApplyAt(b, events[0], n), n)
    ensures RunnableAt(ApplyAt(b, events[0], n), events[1..], n)
    ensures RunAt(b, events, n) == RunAt(ApplyAt(b, events[0], n), events[1..], n)
  {
    ApplyAtOk(b, events[0], n);
  }

  /** The events as a run of the system. */
  function Steps(events: seq<Event>, n: NodeId): seq<Step> {
    if events == [] then []
    else match StepOf(events[0], n)
         case None => Steps(events[1..], n)
         case Some(step) => [step] + Steps(events[1..], n)
  }

  /** An event is one step of the system, or none. */
  lemma {:induction false} EventIsStep(b: State, e: Event, n: NodeId)
    requires WellFormed(b, n) && EnabledAt(b, e, n)
    ensures match StepOf(e, n)
            case None => ApplyAt(b, e, n).sys == b.sys
            case Some(step) => Enabled(b.sys, step) && ApplyAt(b, e, n).sys == Apply(b.sys, step)
  {
    if e.Frame? { FrameStep(b.sys.nodes[n], b.x, e.frame); }
  }

  lemma {:induction false} EventsReach(b: State, events: seq<Event>, n: NodeId)
    requires WellFormed(b, n) && RunnableAt(b, events, n)
    ensures Reaches(b.sys, Steps(events, n), RunAt(b, events, n).sys)
    decreases |events|
  {
    if events != [] {
      RunAtFirst(b, events, n);
      var b1 := ApplyAt(b, events[0], n);
      EventIsStep(b, events[0], n);
      EventsReach(b1, events[1..], n);
      match StepOf(events[0], n)
      case None =>
      case Some(step) => ReachesCons(b.sys, step, Steps(events[1..], n), RunAt(b, events, n).sys);
    }
  }

  // --- Careful runs ----------------------------------------------------------------------------------

  /** No step that can leave a joined socket of the room uncounted, and no LISTEN or UNLISTEN for it that
      fails. */
  ghost predicate CarefulEvent(x: Frames.State, e: Event, r: Room) {
    e.Frame? ==> !Frames.Harmful(x, e.frame, r) && !Frames.FailsFor(x, e.frame, r)
  }

  ghost predicate Careful(b: State, events: seq<Event>, n: NodeId, r: Room)
    requires WellFormed(b, n) && RunnableAt(b, events, n)
    decreases |events|
  {
    events == [] ||
    (&& CarefulEvent(b.x, events[0], r)
     && (ApplyAtOk(b, events[0], n); Careful(ApplyAt(b, events[0], n), events[1..], n, r)))
  }

  lemma {:induction false} CarefulStep(b: State, e: Event, n: NodeId, r: Room)
    requires WellFormed(b, n) && EnabledAt(b, e, n) && CarefulEvent(b.x, e, r) && Frames.Backed(b.x, r)
    ensures Frames.Backed(ApplyAt(b, e, n).x, r)
  {
    if e.Frame? { Frames.StepBackedIff(b.x, e.frame, r); }
  }

  lemma {:induction false} CarefulRun(b: State, events: seq<Event>, n: NodeId, r: Room)
    requires WellFormed(b, n) && RunnableAt(b, events, n) && Careful(b, events, n, r) && Frames.Backed(b.x, r)
    ensures Frames.Backed(RunAt(b, events, n).x, r)
    decreases |events|
  {
    if events != [] {
      RunAtFirst(b, events, n);
      CarefulStep(b, events[0], n, r);
      CarefulRun(ApplyAt(b, events[0], n), events[1..], n, r);
    }
  }

  // --- Calm runs -------------------------------------------------------------------------------------

  /** The socket neither leaves the room nor closes, accepts what it is sent, and the node's session and client
      stay up. */
  predicate CalmEvent(e: Event, n: NodeId, s: Socket, r: Room) {
    match e
    case Rest(step) => Seam.Harmless(step, n, s)
    case Frame(f) =>
      && f != Frames.Leave(s, r) && f != Frames.Close(s)
      && f != Frames.Pg(ListenManager.SessionLost) && f != Frames.Pg(ListenManager.Reconnect)
  }

  predicate Calm(events: seq<Event>, n: NodeId, s: Socket, r: Room) {
    forall e :: e in events ==> CalmEvent(e, n, s, r)
  }

  lemma {:induction false} CalmSteps(e: Event, n: NodeId, s: Socket, r: Room)
    requires CalmEvent(e, n, s, r) && (e.Rest? ==> Outside(e.step, n))
    ensures match StepOf(e, n)
            case None => true
            case Some(step) => Seam.Harmless(step, n, s) && step != OnNode(n, Listen(ListenManager.SessionLost))
  {
  }

  lemma {:induction false} CalmKeepsJoined(b: State, e: Event, n: NodeId, s: Socket, r: Room)
    requires WellFormed(b, n) && EnabledAt(b, e, n) && CalmEvent(e, n, s, r) && s in Frames.Joined(b.x, r)
    ensures s in Frames.Joined(ApplyAt(b, e, n).x, r)
  {
    if e.Frame? { Frames.JoinedStep(b.x, e.frame, r); }
  }

  /** The socket is joined, and backed. */
  ghost predicate Held(b: State, n: NodeId, s: Socket, r: Room) {
    WellFormed(b, n) && Frames.Backed(b.x, r) && s in Frames.Joined(b.x, r)
  }

  lemma {:induction false} HeldIsSubscribed(b: State, n: NodeId, s: Socket, r: Room)
    requires Held(b, n, s, r)
    ensures Seam.Subscribed(b.sys, n, s, r)
  {
    Frames.WithoutOne(Frames.Joined(b.x, r), s);
  }

  lemma {:induction false} HeldStep(b: State, e: Event, n: NodeId, s: Socket, r: Room)
    requires Held(b, n, s, r) && EnabledAt(b, e, n) && CarefulEvent(b.x, e, r) && CalmEvent(e, n, s, r)
    ensures Held(ApplyAt(b, e, n), n, s, r)
  {
    ApplyAtOk(b, e, n);
    CarefulStep(b, e, n, r);
    CalmKeepsJoined(b, e, n, s, r);
  }

  /** A joined socket stays subscribed through whatever the others do. */
  lemma {:induction false} CalmIsSubscribed(b: State, events: seq<Event>, n: NodeId, s: Socket, r: Room)
    requires Held(b, n, s, r) && RunnableAt(b, events, n) && Careful(b, events, n, r) && Calm(events, n, s, r)
    ensures Runnable(b.sys, Steps(events, n)) && Seam.StaysSubscribed(b.sys, Steps(events, n), n, s, r)
    decreases |events|
  {
    if events == [] {
      HeldIsSubscribed(b, n, s, r);
    } else {
      var e := events[0];
      assert e in events;
      RunAtFirst(b, events, n);
      HeldStep(b, e, n, s, r);
      assert forall x :: x in events[1..] ==> x in events;
      CalmIsSubscribed(ApplyAt(b, e, n), events[1..], n, s, r);
      HeldIsSubscribed(b, n, s, r);
      CalmSteps(e, n, s, r);
      EventIsStep(b, e, n);
      match StepOf(e, n)
      case None =>
      case Some(step) =>
        RunCons(b.sys, step, Steps(events[1..], n));
        Seam.StaysCons(b.sys, step, Steps(events[1..], n), n, s, r);
    }
  }

  // --- The seam of a joined socket -------------------------------------------------------------------

  /** A system in which the node has just started. */
  ghost predicate JustBooted(init: seq<Step>, sys: System, b: State, n: NodeId) {
    && Reaches(Initial(), init, sys) && n !in sys.nodes
    && b == State(Apply(sys, Boot(n)), Frames.Start())
  }

  lemma {:induction false} BootedOk(init: seq<Step>, sys: System, b: State, n: NodeId)
    requires JustBooted(init, sys, b, n)
    ensures WellFormed(b, n) && Reaches(Initial(), init + ([Boot(n)] + []), b.sys)
  {
    ApplyOk(sys, Boot(n));
    ReachesCons(sys, Boot(n), [], b.sys);
    ReachesConcat(Initial(), init, sys, [Boot(n)] + [], b.sys);
  }

  /** No gap at the join seam, from the frames alone. A node starts in any reachable system and goes through
      any careful run, with everything else in the system interleaved; then, with the socket joined, the room's
      LISTEN answered and no UNLISTEN queued, the history page is read; from there on anything careful and calm
      happens: others join, leave and close as they like. The seam is closed in every later state. */
  lemma {:induction false} JoinedSeam(init: seq<Step>, sys: System, b0: State, before: seq<Event>, b1: State,
                                      after: seq<Event>, n: NodeId, s: Socket, r: Room, lastSeen: nat)
    requires JustBooted(init, sys, b0, n) && WellFormed(b0, n)
    requires RunnableAt(b0, before, n) && Careful(b0, before, n, r) && b1 == RunAt(b0, before, n)
    requires s in Frames.Joined(b1.x, r) && ListenManager.Active(b1.x.chat.pg, r)
    requires RunnableAt(b1, after, n) && Careful(b1, after, n, r) && Calm(after, n, s, r)
    ensures Seam.SeamClosed(b1.sys, RunAt(b1, after, n).sys, n, s, r, lastSeen)
  {
    BootedOk(init, sys, b0, n);
    EventsReach(b0, before, n);
    var start := init + ([Boot(n)] + []);
    ReachesConcat(Initial(), start, b0.sys, Steps(before, n), b1.sys);
    CarefulRun(b0, before, n, r);
    EventsReach(b1, after, n);
    CalmIsSubscribed(b1, after, n, s, r);
    Seam.SubscribedSeam(start + Steps(before, n), b1.sys, Steps(after, n), RunAt(b1, after, n).sys, n, s, r, lastSeen);
  }
}
