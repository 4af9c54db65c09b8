/** Fan-out of room messages: per-room batch buffers flushed by one shared timer, broadcast to the open
    sockets of the room through the event loop's immediate queue. */
module Batching {
  import opened ChatTypes
  import EcmaMap

  datatype Broadcast = Broadcast(room: Room, batch: seq<Message>)

  /** A `setImmediate` callback: one serialised batch and the sockets it goes to. */
  datatype Job = Job(batch: seq<Message>, sockets: set<Socket>)

  datatype FanOut = FanOut(
    buffers: EcmaMap.Map<Room, seq<Message>>,  // roomMessageBatchBuffers
    timerArmed: bool,                          // roomMessageBatchFlushTimer != null
    broadcasts: seq<Broadcast>,                // every broadcastToRoom call of a batch, in order
    immediates: seq<Job>,                      // scheduled and not yet run
    handed: map<Socket, seq<Message>>)         // live messages passed to socket.send

  datatype Step =
    | Enqueue(room: Room, msg: Message)
    | TimerFires(sockets: map<Room, set<Socket>>, open: set<Socket>)
    | RunImmediate(failed: set<Socket>)
    | Destroy

  function Start(): (f: FanOut)
    ensures WellFormed(f)
  {
    FanOut(EcmaMap.Empty(), false, [], [], map[])
  }

  ghost predicate WellFormed(f: FanOut) {
    f.buffers.Valid() && forall r :: r in f.buffers.vals ==> f.buffers.vals[r] != []
  }

  function Buffer(f: FanOut, r: Room): seq<Message> {
    if r in f.buffers.vals then f.buffers.vals[r] else []
  }

  function Handed(f: FanOut, s: Socket): seq<Message> {
    if s in f.handed then f.handed[s] else []
  }

  function DoEnqueue(f: FanOut, r: Room, m: Message): (f': FanOut)
    requires WellFormed(f)
    ensures WellFormed(f')
  {
    f.(buffers := f.buffers.Set(r, Buffer(f, r) + [m]), timerArmed := true)
  }

  /** The non-empty buffers in the order their rooms were first buffered. */
  function Batches(slots: seq<EcmaMap.Slot<Room>>, vals: map<Room, seq<Message>>): seq<Broadcast> {
    if slots == [] then []
    else
      var front, last := slots[..|slots| - 1], slots[|slots| - 1];
      Batches(front, vals) +
      if last.Key? && last.key in vals && vals[last.key] != [] then [Broadcast(last.key, vals[last.key])] else []
  }

  /** The sockets a broadcast reaches: registered for the room, open and under the send threshold. */
  function Targets(r: Room, sockets: map<Room, set<Socket>>, open: set<Socket>): set<Socket> {
    if r in sockets then sockets[r] * open else {}
  }

  /** What `broadcastToRoom` schedules: nothing when no socket is reached. */
  function JobOf(b: Broadcast, sockets: map<Room, set<Socket>>, open: set<Socket>): seq<Job> {
    var targets := Targets(b.room, sockets, open);
    if targets == {} then [] else [Job(b.batch, targets)]
  }

  function Jobs(bs: seq<Broadcast>, sockets: map<Room, set<Socket>>, open: set<Socket>): seq<Job> {
    if bs == [] then []
    else
      var front, last := bs[..|bs| - 1], bs[|bs| - 1];
      Jobs(front, sockets, open) + JobOf(last, sockets, open)
  }

  function DoFlush(f: FanOut, sockets: map<Room, set<Socket>>, open: set<Socket>): (f': FanOut)
    ensures WellFormed(f')
  {
    var bs := Batches(f.buffers.slots, f.buffers.vals);
    FanOut(EcmaMap.Empty(), false, f.broadcasts + bs, f.immediates + Jobs(bs, sockets, open), f.handed)
  }

  /** Hands a batch to each socket of a set. */
  function Hand(handed: map<Socket, seq<Message>>, sockets: set<Socket>,
                batch: seq<Message>): map<Socket, seq<Message>>
  {
    map s | s in handed.Keys + sockets ::
      (if s in handed then handed[s] else []) + (if s in sockets then batch else [])
  }

  function DoImmediate(f: FanOut, failed: set<Socket>): FanOut
    requires f.immediates != []
  {
    var job := f.immediates[0];
    f.(immediates := f.immediates[1..], handed := Hand(f.handed, job.sockets - failed, job.batch))
  }

  predicate Enabled(f: FanOut, step: Step) {
    match step
    case TimerFires(_, _) => f.timerArmed
    case RunImmediate(_) => f.immediates != []
    case _ => true
  }

  function Apply(f: FanOut, step: Step): (f': FanOut)
    requires WellFormed(f) && Enabled(f, step)
    ensures WellFormed(f')
  {
    match step
    case Enqueue(r, m) => DoEnqueue(f, r, m)
    case TimerFires(sockets, open) => DoFlush(f, sockets, open)
    case RunImmediate(failed) => DoImmediate(f, failed)
    case Destroy => f.(timerArmed := false)
  }

  function Run(f: FanOut, steps: seq<Step>): (f': FanOut)
    requires WellFormed(f) && Runnable(f, steps)
    ensures WellFormed(f')
    decreases |steps|
  {
    if steps == [] then f else Run(Apply(f, steps[0]), steps[1..])
  }

  predicate Runnable(f: FanOut, steps: seq<Step>)
    requires WellFormed(f)
    decreases |steps|
  {
    steps == [] || (Enabled(f, steps[0]) && Runnable(Apply(f, steps[0]), steps[1..]))
  }

  lemma {:induction false} BatchesNext(slots: seq<EcmaMap.Slot<Room>>, i: nat, vals: map<Room, seq<Message>>)
    requires i < |slots| && slots[i].Key? && slots[i].key in vals
    ensures Batches(slots[..i + 1], vals) ==
            if vals[slots[i].key] == [] then Batches(slots[..i], vals)
            else Batches(slots[..i], vals) + [Broadcast(slots[i].key, vals[slots[i].key])]
  {
    assert slots[..i + 1][..i] == slots[..i];
  }

  lemma {:induction false} JobsNext(bs: seq<Broadcast>, b: Broadcast, sockets: map<Room, set<Socket>>,
                                    open: set<Socket>)
    ensures Jobs(bs + [b], sockets, open) == Jobs(bs, sockets, open) + JobOf(b, sockets, open)
  {
    assert (bs + [b])[..|bs|] == bs;
  }

  lemma {:induction false} HandNone(handed: map<Socket, seq<Message>>, batch: seq<Message>)
    ensures Hand(handed, {}, batch) == handed
  {
    assert forall s :: s in handed ==> handed[s] + [] == handed[s];
  }

  lemma {:induction false} HandNext(handed: map<Socket, seq<Message>>, sockets: set<Socket>, s: Socket,
                                    batch: seq<Message>)
    requires s !in sockets
    ensures var h := Hand(handed, sockets, batch);
            Hand(handed, sockets + {s}, batch) == h[s := (if s in h then h[s] else []) + batch]
  {
    assert (if s in handed then handed[s] else []) + [] == if s in handed then handed[s] else [];
  }

  // --- Batching conservation ---------------------------------------------------------------------

  /** The concatenation of the batches broadcast to one room. */
  function Sent(bs: seq<Broadcast>, r: Room): seq<Message> {
    if bs == [] then []
    else
      var front, last := bs[..|bs| - 1], bs[|bs| - 1];
      Sent(front, r) + if last.room == r then last.batch else []
  }

  lemma {:induction false} SentConcat(a: seq<Broadcast>, b: seq<Broadcast>, r: Room)
    ensures Sent(a + b, r) == Sent(a, r) + Sent(b, r)
  {
    if b == [] {
      assert a + b == a;
    } else {
      assert (a + b)[..|a + b| - 1] == a + b[..|b| - 1];
      SentConcat(a, b[..|b| - 1], r);
    }
  }

  /** A flush sends each room its own buffer, once. */
  lemma {:induction false} SentOfBatches(slots: seq<EcmaMap.Slot<Room>>, vals: map<Room, seq<Message>>, r: Room)
    requires EcmaMap.DistinctKeys(slots)
    ensures Sent(Batches(slots, vals), r) == if r in vals && EcmaMap.Key(r) in slots then vals[r] else []
  {
    if slots != [] {
      var front, last := slots[..|slots| - 1], slots[|slots| - 1];
      SentOfBatches(front, vals, r);
      SentConcat(Batches(front, vals), Batches(slots, vals)[|Batches(front, vals)|..], r);
      assert Batches(slots, vals) == Batches(front, vals) + Batches(slots, vals)[|Batches(front, vals)|..];
      assert EcmaMap.Key(r) in slots <==> EcmaMap.Key(r) in front || last == EcmaMap.Key(r);
      assert last == EcmaMap.Key(r) ==> EcmaMap.Key(r) !in front;
    }
  }

  /** What a run enqueued for one room. */
  function Enqueued(steps: seq<Step>, r: Room): seq<Message> {
    if steps == [] then []
    else EnqueuedBy(steps[0], r) + Enqueued(steps[1..], r)
  }

  function EnqueuedBy(step: Step, r: Room): seq<Message> {
    if step.Enqueue? && step.room == r then [step.msg] else []
  }

  /** Everything of a room that has entered fan-out: broadcast, then still buffered. */
  function Flow(f: FanOut, r: Room): seq<Message> {
    Sent(f.broadcasts, r) + Buffer(f, r)
  }

  lemma {:induction false} ConservationStep(f: FanOut, step: Step, r: Room)
    requires WellFormed(f) && Enabled(f, step)
    ensures Flow(Apply(f, step), r) == Flow(f, r) + EnqueuedBy(step, r)
  {
    if step.TimerFires? {
      SentConcat(f.broadcasts, Batches(f.buffers.slots, f.buffers.vals), r);
      SentOfBatches(f.buffers.slots, f.buffers.vals, r);
    }
  }

  lemma {:induction false} ConservationFrom(f: FanOut, steps: seq<Step>, r: Room)
    requires WellFormed(f) && Runnable(f, steps)
    ensures Flow(Run(f, steps), r) == Flow(f, r) + Enqueued(steps, r)
    decreases |steps|
  {
    if steps != [] {
      ConservationStep(f, steps[0], r);
      ConservationFrom(Apply(f, steps[0]), steps[1..], r);
      Assoc(Flow(f, r), EnqueuedBy(steps[0], r), Enqueued(steps[1..], r));
    }
  }

  /** Batching conservation. In every run, what was broadcast to a room followed by what its buffer
      still holds is exactly what was enqueued for that room, in order and unmixed with other rooms;
      no broadcast batch is empty. */
  lemma {:induction false} Conservation(steps: seq<Step>, r: Room)
    requires Runnable(Start(), steps)
    ensures var f := Run(Start(), steps);
            && Sent(f.broadcasts, r) + Buffer(f, r) == Enqueued(steps, r)
            && forall b :: b in f.broadcasts ==> b.batch != []
  {
    ConservationFrom(Start(), steps, r);
    NoEmptyBatch(Start(), steps);
  }

  function RoomsOf(bs: seq<Broadcast>): (rooms: seq<Room>)
    ensures |rooms| == |bs|
  {
    seq(|bs|, i requires 0 <= i < |bs| => bs[i].room)
  }

  /** A flush broadcasts in the order in which the map holds the buffers. */
  lemma {:induction false} BatchesInOrder(slots: seq<EcmaMap.Slot<Room>>, vals: map<Room, seq<Message>>)
    ensures EcmaMap.InOrder(slots, RoomsOf(Batches(slots, vals)))
  {
    if slots != [] {
      var front, last := slots[..|slots| - 1], slots[|slots| - 1];
      BatchesInOrder(front, vals);
      var more := if last.Key? && last.key in vals && vals[last.key] != [] then [Broadcast(last.key, vals[last.key])]
                  else [];
      EcmaMap.InOrderSnoc(slots, RoomsOf(Batches(front, vals)), RoomsOf(more));
      assert RoomsOf(Batches(slots, vals)) == RoomsOf(Batches(front, vals)) + RoomsOf(more);
    }
  }

  lemma {:induction false} BatchesNotEmpty(slots: seq<EcmaMap.Slot<Room>>, vals: map<Room, seq<Message>>)
    ensures forall b :: b in Batches(slots, vals) ==> b.batch != [] && b.room in vals && vals[b.room] == b.batch
  {
    if slots != [] {
      BatchesNotEmpty(slots[..|slots| - 1], vals);
    }
  }

  lemma {:induction false} NoEmptyBatch(f: FanOut, steps: seq<Step>)
    requires WellFormed(f) && Runnable(f, steps)
    requires forall b :: b in f.broadcasts ==> b.batch != []
    ensures forall b :: b in Run(f, steps).broadcasts ==> b.batch != []
    decreases |steps|
  {
    if steps != [] {
      BatchesNotEmpty(f.buffers.slots, f.buffers.vals);
      NoEmptyBatch(Apply(f, steps[0]), steps[1..]);
    }
  }

  // --- The flush timer ---------------------------------------------------------------------------

  /** The timer is armed exactly when some buffer holds a message. */
  ghost predicate TimerMatches(f: FanOut) {
    f.timerArmed <==> f.buffers.vals != map[]
  }

  lemma {:induction false} TimerFrom(f: FanOut, steps: seq<Step>)
    requires WellFormed(f) && Runnable(f, steps) && TimerMatches(f) && Destroy !in steps
    ensures TimerMatches(Run(f, steps))
    decreases |steps|
  {
    if steps != [] {
      assert steps[0] != Destroy;
      if steps[0].Enqueue? {
        assert steps[0].room in Apply(f, steps[0]).buffers.vals;
      }
      TimerFrom(Apply(f, steps[0]), steps[1..]);
    }
  }

  /** While the service runs, the timer is armed exactly when a message waits to be flushed, so no
      buffered message is ever stranded; shutting the service down keeps this exactly when nothing is
      buffered. */
  lemma {:induction false} TimerArmedIffBuffered(steps: seq<Step>)
    requires Runnable(Start(), steps) && Destroy !in steps
    ensures var f := Run(Start(), steps);
            && (f.timerArmed <==> exists r :: Buffer(f, r) != [])
            && (TimerMatches(Apply(f, Destroy)) <==> f.buffers.vals == map[])
  {
    TimerFrom(Start(), steps);
    var f := Run(Start(), steps);
    if f.timerArmed {
      var r :| r in f.buffers.vals;
      assert Buffer(f, r) != [];
    }
  }

  // --- What is on its way to one socket ------------------------------------------------------------

  /** The messages the scheduled jobs will hand to a socket. */
  function Scheduled(jobs: seq<Job>, s: Socket): seq<Message> {
    if jobs == [] then []
    else
      var front, last := jobs[..|jobs| - 1], jobs[|jobs| - 1];
      Scheduled(front, s) + if s in last.sockets then last.batch else []
  }

  lemma {:induction false} ScheduledConcat(a: seq<Job>, b: seq<Job>, s: Socket)
    ensures Scheduled(a + b, s) == Scheduled(a, s) + Scheduled(b, s)
  {
    if b == [] {
      assert a + b == a;
    } else {
      assert (a + b)[..|a + b| - 1] == a + b[..|b| - 1];
      ScheduledConcat(a, b[..|b| - 1], s);
    }
  }

  /** Buffers hold only their own room's messages. */
  ghost predicate Unmixed(vals: map<Room, seq<Message>>) {
    forall r, m :: r in vals && m in vals[r] ==> m.room == r
  }

  lemma {:induction false} ScheduledOne(j: Job, s: Socket)
    ensures Scheduled([j], s) == if s in j.sockets then j.batch else []
  {
    assert [j][..0] == [];
  }

  lemma {:induction false} JobOfRoom(b: Broadcast, sockets: map<Room, set<Socket>>, open: set<Socket>,
                                     s: Socket, r: Room)
    requires forall m :: m in b.batch ==> m.room == b.room
    ensures InRoom(Scheduled(JobOf(b, sockets, open), s), r) ==
            if s in Targets(r, sockets, open) && b.room == r then b.batch else []
  {
    InRoomPure(b.batch, b.room, r);
    ScheduledOne(Job(b.batch, Targets(b.room, sockets, open)), s);
  }

  lemma {:induction false} JobsOfRoom(bs: seq<Broadcast>, sockets: map<Room, set<Socket>>, open: set<Socket>,
                                      s: Socket, r: Room)
    requires forall b, m :: b in bs && m in b.batch ==> m.room == b.room
    ensures InRoom(Scheduled(Jobs(bs, sockets, open), s), r) ==
            if s in Targets(r, sockets, open) then Sent(bs, r) else []
  {
    if bs != [] {
      var front, last := bs[..|bs| - 1], bs[|bs| - 1];
      JobsOfRoom(front, sockets, open, s, r);
      assert last in bs;
      JobOfRoom(last, sockets, open, s, r);
      ScheduledConcat(Jobs(front, sockets, open), JobOf(last, sockets, open), s);
      InRoomConcat(Scheduled(Jobs(front, sockets, open), s), Scheduled(JobOf(last, sockets, open), s), r);
    }
  }

  /** A flush schedules for a socket exactly the buffers of the rooms it is registered for, provided it is
      open and under the send threshold. */
  lemma {:induction false} FlushSchedules(f: FanOut, sockets: map<Room, set<Socket>>, open: set<Socket>,
                                          s: Socket, r: Room)
    requires WellFormed(f) && Unmixed(f.buffers.vals)
    ensures InRoom(Scheduled(DoFlush(f, sockets, open).immediates, s), r) ==
            InRoom(Scheduled(f.immediates, s), r) +
            (if r in sockets && s in sockets[r] && s in open then Buffer(f, r) else [])
  {
    var bs := Batches(f.buffers.slots, f.buffers.vals);
    BatchesNotEmpty(f.buffers.slots, f.buffers.vals);
    JobsOfRoom(bs, sockets, open, s, r);
    SentOfBatches(f.buffers.slots, f.buffers.vals, r);
    ScheduledConcat(f.immediates, Jobs(bs, sockets, open), s);
    InRoomConcat(Scheduled(f.immediates, s), Scheduled(Jobs(bs, sockets, open), s), r);
  }

  /** The oldest job leads what is scheduled for a socket. */
  lemma {:induction false} ScheduledFirst(jobs: seq<Job>, s: Socket)
    requires jobs != []
    ensures Scheduled(jobs, s) == (if s in jobs[0].sockets then jobs[0].batch else []) + Scheduled(jobs[1..], s)
  {
    assert jobs == [jobs[0]] + jobs[1..];
    ScheduledConcat([jobs[0]], jobs[1..], s);
    ScheduledOne(jobs[0], s);
  }

  /** Running a job hands its batch to each of its sockets whose send succeeds, and to nobody else. */
  lemma ImmediateHands(f: FanOut, failed: set<Socket>, s: Socket)
    requires f.immediates != []
    ensures Handed(DoImmediate(f, failed), s) ==
            Handed(f, s) + if s in f.immediates[0].sockets && s !in failed then f.immediates[0].batch else []
  {
  }

  lemma EnqueueBuffers(f: FanOut, r: Room, m: Message, x: Room)
    requires WellFormed(f)
    ensures Buffer(DoEnqueue(f, r, m), x) == if x == r then Buffer(f, r) + [m] else Buffer(f, x)
  {
  }

  // --- Nothing is stranded -------------------------------------------------------------------------

  /** Every scheduled job has something to send and somebody to send it to. */
  ghost predicate Useful(f: FanOut) {
    forall j :: j in f.immediates ==> j.batch != [] && j.sockets != {}
  }

  lemma {:induction false} JobsUseful(bs: seq<Broadcast>, sockets: map<Room, set<Socket>>, open: set<Socket>)
    requires forall b :: b in bs ==> b.batch != []
    ensures forall j :: j in Jobs(bs, sockets, open) ==> j.batch != [] && j.sockets != {}
  {
    if bs != [] {
      var front, last := bs[..|bs| - 1], bs[|bs| - 1];
      assert last in bs;
      JobsUseful(front, sockets, open);
    }
  }

  lemma {:induction false} UsefulStep(f: FanOut, step: Step)
    requires WellFormed(f) && Enabled(f, step) && Useful(f)
    ensures Useful(Apply(f, step))
  {
    if step.TimerFires? {
      BatchesNotEmpty(f.buffers.slots, f.buffers.vals);
      JobsUseful(Batches(f.buffers.slots, f.buffers.vals), step.sockets, step.open);
    }
  }

  lemma {:induction false} UsefulRun(f: FanOut, steps: seq<Step>)
    requires WellFormed(f) && Runnable(f, steps) && Useful(f)
    ensures Useful(Run(f, steps))
    decreases |steps|
  {
    if steps != [] {
      UsefulStep(f, steps[0]);
      UsefulRun(Apply(f, steps[0]), steps[1..]);
    }
  }

  /** In every run no job is scheduled without a message or without a socket. */
  lemma {:induction false} NoIdleJobs(steps: seq<Step>)
    requires Runnable(Start(), steps)
    ensures Useful(Run(Start(), steps))
  {
    UsefulRun(Start(), steps);
  }

  /** The next `k` jobs run, no send failing. */
  function Drain(k: nat): seq<Step> {
    if k == 0 then [] else [RunImmediate({})] + Drain(k - 1)
  }

  /** Scheduled jobs can always run, and hand over all that is scheduled, in order. */
  lemma {:induction false} DrainRuns(f: FanOut, s: Socket)
    requires WellFormed(f)
    ensures Runnable(f, Drain(|f.immediates|))
    ensures var f' := Run(f, Drain(|f.immediates|));
            && f'.immediates == [] && f'.buffers == f.buffers && f'.timerArmed == f.timerArmed
            && Handed(f', s) == Handed(f, s) + Scheduled(f.immediates, s)
    decreases |f.immediates|
  {
    if f.immediates == [] {
      assert Handed(f, s) + [] == Handed(f, s);
    } else {
      var f1 := Apply(f, RunImmediate({}));
      DrainRuns(f1, s);
      assert ([RunImmediate({})] + Drain(|f.immediates| - 1))[1..] == Drain(|f.immediates| - 1);
      ScheduledFirst(f.immediates, s);
      ImmediateHands(f, {}, s);
      Assoc(Handed(f, s), if s in f.immediates[0].sockets then f.immediates[0].batch else [],
            Scheduled(f.immediates[1..], s));
    }
  }

  /** The flush of a service, and all jobs scheduled by then. */
  function FlushAll(f: FanOut, sockets: map<Room, set<Socket>>, open: set<Socket>): seq<Step>
  {
    [TimerFires(sockets, open)] + Drain(|DoFlush(f, sockets, open).immediates|)
  }

  /** Nothing is stranded: in every state of a running service in which a message is buffered, its timer can
      fire and the jobs can run; then nothing is buffered or scheduled, and each registered open socket has been
      handed what was scheduled for it and its room's buffer behind it. */
  lemma {:induction false} BufferedIsDelivered(steps: seq<Step>, sockets: map<Room, set<Socket>>, open: set<Socket>,
                                               s: Socket, r: Room)
    requires Runnable(Start(), steps) && Destroy !in steps
    requires Buffer(Run(Start(), steps), r) != [] && Unmixed(Run(Start(), steps).buffers.vals)
    ensures var f := Run(Start(), steps);
            && Runnable(f, FlushAll(f, sockets, open))
            && var f' := Run(f, FlushAll(f, sockets, open));
               && f'.immediates == [] && Buffer(f', r) == [] && !f'.timerArmed
               && InRoom(Handed(f', s), r) ==
                  InRoom(Handed(f, s), r) + (InRoom(Scheduled(f.immediates, s), r) +
                  if r in sockets && s in sockets[r] && s in open then Buffer(f, r) else [])
  {
    TimerArmedIffBuffered(steps);
    var f := Run(Start(), steps);
    FlushDelivers(f, sockets, open, s, r);
  }

  lemma {:induction false} FlushDelivers(f: FanOut, sockets: map<Room, set<Socket>>, open: set<Socket>,
                                         s: Socket, r: Room)
    requires WellFormed(f) && f.timerArmed && Unmixed(f.buffers.vals)
    ensures Runnable(f, FlushAll(f, sockets, open))
    ensures var f' := Run(f, FlushAll(f, sockets, open));
            && f'.immediates == [] && Buffer(f', r) == [] && !f'.timerArmed
            && InRoom(Handed(f', s), r) ==
               InRoom(Handed(f, s), r) + (InRoom(Scheduled(f.immediates, s), r) +
               if r in sockets && s in sockets[r] && s in open then Buffer(f, r) else [])
  {
    var f1 := DoFlush(f, sockets, open);
    FlushSchedules(f, sockets, open, s, r);
    DrainRuns(f1, s);
    InRoomConcat(Handed(f1, s), Scheduled(f1.immediates, s), r);
    assert FlushAll(f, sockets, open)[1..] == Drain(|f1.immediates|);
    assert Handed(f1, s) == Handed(f, s);
  }
}
