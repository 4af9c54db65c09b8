/** The seam between the history page of a join and the live stream: what covers it, and exactly when it
    has a gap. */
module Seam {
  import opened ChatTypes
  import opened Pipeline
  import Sequencer
  import ListenManager
  import Registry
  import History

  /** The step does not make this node drop a message for the socket: no replaced client, and the socket is
      open, under the threshold and accepting sends. */
  predicate HarmlessNode(step: NodeStep, s: Socket) {
    match step
    case Listen(ls) => !ls.Reconnect?
    case LoseTail(_) => false
    case FlushTimer(open) => s in open
    case Immediate(failed) => s !in failed
    case _ => true
  }

  predicate Harmless(step: Step, n: NodeId, s: Socket) {
    step.OnNode? && step.node == n ==> HarmlessNode(step.nodeStep, s)
  }

  ghost predicate Registered(sys: System, n: NodeId, s: Socket, r: Room) {
    n in sys.nodes && s in Registry.Sockets(sys.nodes[n].reg, r)
  }

  /** In every state of the run the socket is registered, and every step is harmless. Whether the node
      listens to the room is left open. */
  ghost predicate Attached(sys: System, steps: seq<Step>, n: NodeId, s: Socket, r: Room)
    requires SystemOk(sys) && Runnable(sys, steps)
    decreases |steps|
  {
    Registered(sys, n, s, r) &&
    (steps != [] ==>
      Harmless(steps[0], n, s) &&
      (ApplyOk(sys, steps[0]); Attached(Apply(sys, steps[0]), steps[1..], n, s, r)))
  }

  // --- What an attached socket hears -----------------------------------------------------------------

  /** The rows of the room that the step commits. */
  ghost function Committed(sys: System, step: Step, r: Room): seq<Message> {
    if step.OnDb? && step.dbStep.Commit? then InRoom(Sequencer.TxOf(sys.db, step.dbStep.tx).notes, r) else []
  }

  ghost predicate Listens(sys: System, n: NodeId, r: Room) {
    n in sys.nodes && r in sys.nodes[n].pg.listening
  }

  /** The rows of the room committed in the run while the node listened to it. */
  ghost function HeardRows(sys: System, steps: seq<Step>, n: NodeId, r: Room): seq<Message>
    requires SystemOk(sys) && Runnable(sys, steps)
    decreases |steps|
  {
    if steps == [] then []
    else
      ApplyOk(sys, steps[0]);
      (if Listens(sys, n, r) then Committed(sys, steps[0], r) else [])
        + HeardRows(Apply(sys, steps[0]), steps[1..], n, r)
  }

  /** No row of the room is committed in the run while the node does not listen to it. */
  ghost predicate AllHeard(sys: System, steps: seq<Step>, n: NodeId, r: Room)
    requires SystemOk(sys) && Runnable(sys, steps)
    decreases |steps|
  {
    steps != [] ==>
      (Committed(sys, steps[0], r) != [] ==> Listens(sys, n, r)) &&
      (ApplyOk(sys, steps[0]); AllHeard(Apply(sys, steps[0]), steps[1..], n, r))
  }

  lemma {:induction false} HarmlessKeepsStream(n: Node, step: NodeStep, s: Socket, r: Room)
    requires NodeOk(n) && NodeEnabled(n, step) && s in Registry.Sockets(n.reg, r) && HarmlessNode(step, s)
    ensures Stream(ApplyNode(n, step), s, r) == Stream(n, s, r)
  {
    match step
    case Dispatch => DispatchStream(n, s, r);
    case FlushTimer(open) => FlushStream(n, open, s, r);
    case Immediate(failed) => BeforeImmediate(n, s, r); AfterImmediate(n, failed, s, r);
    case _ =>
  }

  lemma Elsewhere(sys: System, step: Step, n: NodeId)
    requires SystemOk(sys) && Enabled(sys, step) && n in sys.nodes
    requires !(step.OnDb? && step.dbStep.Commit?) && !(step.OnNode? && step.node == n)
    ensures n in Apply(sys, step).nodes && Apply(sys, step).nodes[n] == sys.nodes[n]
  {
  }

  lemma {:induction false} CommitStep(sys: System, t: Sequencer.TxId, n: NodeId, s: Socket, r: Room)
    requires SystemOk(sys) && Enabled(sys, OnDb(Sequencer.Commit(t))) && n in sys.nodes
    ensures var sys1 := Apply(sys, OnDb(Sequencer.Commit(t)));
            && n in sys1.nodes
            && Stream(sys1.nodes[n], s, r) ==
               Stream(sys.nodes[n], s, r) +
               if Listens(sys, n, r) then Committed(sys, OnDb(Sequencer.Commit(t)), r) else []
  {
    NotifyStream(sys.nodes[n], Sequencer.TxOf(sys.db, t).notes, s, r);
  }

  lemma {:induction false} StillStep(sys: System, step: Step, n: NodeId, s: Socket, r: Room)
    requires SystemOk(sys) && Enabled(sys, step) && Registered(sys, n, s, r) && Harmless(step, n, s)
    requires !(step.OnDb? && step.dbStep.Commit?)
    ensures n in Apply(sys, step).nodes && Stream(Apply(sys, step).nodes[n], s, r) == Stream(sys.nodes[n], s, r)
  {
    if step.OnNode? && step.node == n {
      HarmlessKeepsStream(sys.nodes[n], step.nodeStep, s, r);
    } else {
      Elsewhere(sys, step, n);
    }
  }

  /** One harmless step adds to a registered socket's stream what it commits, if the node listens. */
  lemma {:induction false} AttachedStep(sys: System, step: Step, n: NodeId, s: Socket, r: Room)
    requires SystemOk(sys) && Enabled(sys, step) && Registered(sys, n, s, r) && Harmless(step, n, s)
    ensures n in Apply(sys, step).nodes
    ensures Stream(Apply(sys, step).nodes[n], s, r) ==
            Stream(sys.nodes[n], s, r) + if Listens(sys, n, r) then Committed(sys, step, r) else []
  {
    if step.OnDb? && step.dbStep.Commit? {
      CommitStep(sys, step.dbStep.tx, n, s, r);
    } else {
      StillStep(sys, step, n, s, r);
      NothingMore(Stream(sys.nodes[n], s, r));
    }
  }

  lemma NothingMore(stream: seq<Message>)
    ensures stream + [] == stream
  {
  }

  /** An attached socket's stream grows by exactly the rows the node hears. */
  lemma {:induction false} AttachedRun(sys: System, steps: seq<Step>, n: NodeId, s: Socket, r: Room)
    requires SystemOk(sys) && Runnable(sys, steps) && Attached(sys, steps, n, s, r)
    ensures n in Run(sys, steps).nodes
    ensures Stream(Run(sys, steps).nodes[n], s, r) == Stream(sys.nodes[n], s, r) + HeardRows(sys, steps, n, r)
    decreases |steps|
  {
    if steps == [] {
      assert Stream(sys.nodes[n], s, r) + [] == Stream(sys.nodes[n], s, r);
    } else {
      RunFirst(sys, steps);
      AttachedStep(sys, steps[0], n, s, r);
      var sys1 := Apply(sys, steps[0]);
      AttachedRun(sys1, steps[1..], n, s, r);
      Assoc(Stream(sys.nodes[n], s, r), if Listens(sys, n, r) then Committed(sys, steps[0], r) else [],
            HeardRows(sys1, steps[1..], n, r));
    }
  }

  // --- The rows heard and the log --------------------------------------------------------------------

  lemma {:induction false} NumberingKept(sys: System, step: Step)
    requires SystemOk(sys) && Sequencer.Inv(sys.db) && Enabled(sys, step)
    ensures Sequencer.Inv(Apply(sys, step).db)
  {
    if step.OnDb? { Sequencer.StepInv(sys.db, step.dbStep); }
  }

  /** What one step adds to the room's log. */
  lemma {:induction false} LogStep(sys: System, step: Step, r: Room)
    requires SystemOk(sys) && Sequencer.Inv(sys.db) && Enabled(sys, step)
    ensures var log, rows := InRoom(sys.db.log, r), Committed(sys, step, r);
            && InRoom(Apply(sys, step).db.log, r) == log + rows
            && Numbered(rows, |log| + 1, |log| + 1 + |rows|)
  {
    var log := InRoom(sys.db.log, r);
    if step.OnDb? && step.dbStep.Commit? {
      assert Sequencer.NotesInv(sys.db, step.dbStep.tx);
      Sequencer.CommitRoom(sys.db, step.dbStep.tx, r);
    } else {
      assert log + [] == log;
    }
  }

  /** The room's log carries the numbers 1, 2, 3, ..., as it does in every reachable state. */
  ghost predicate Gapless(sys: System, r: Room) {
    Numbered(InRoom(sys.db.log, r), 1, |InRoom(sys.db.log, r)| + 1)
  }

  /** The rows numbered above `lo` and up to `hi`. */
  ghost predicate Within(ms: seq<Message>, lo: nat, hi: nat) {
    forall i :: 0 <= i < |ms| ==> lo < ms[i].seqNo <= hi
  }

  /** What the rows heard in a run say about the log it leaves: all of its new rows if all were heard, and
      otherwise at least one of them is missing. */
  ghost predicate HeardOf(log0: seq<Message>, log1: seq<Message>, heard: seq<Message>, all: bool) {
    && log0 <= log1
    && Within(heard, |log0|, |log1|)
    && (all ==> heard == log1[|log0|..])
    && (!all ==> exists i :: |log0| <= i < |log1| && log1[i] !in heard)
  }

  /** One step before a run: `rows` are committed, and heard or not. */
  lemma {:induction false} HeardCons(log0: seq<Message>, rows: seq<Message>, log2: seq<Message>, hears: bool,
                                     heard: seq<Message>, all: bool)
    requires Numbered(rows, |log0| + 1, |log0| + 1 + |rows|)
    requires Numbered(log2, 1, |log2| + 1) && HeardOf(log0 + rows, log2, heard, all)
    ensures HeardOf(log0, log2, (if hears then rows else []) + heard, (rows != [] ==> hears) && all)
  {
    var first := if hears then rows else [];
    assert log0 <= log0 + rows <= log2;
    if !all {
      var i :| |log0 + rows| <= i < |log2| && log2[i] !in heard;
      assert log2[i].seqNo == i + 1;
      assert log2[i] !in first;
      assert log2[i] !in first + heard;
    } else if rows != [] && !hears {
      assert log2[|log0|] == rows[0];
      assert log2[|log0|] !in heard;
      assert first + heard == heard;
    } else {
      assert first == rows;
      assert log2[|log0|..] == rows + log2[|log0 + rows|..];
    }
  }

  lemma {:induction false} HeardRun(sys: System, steps: seq<Step>, n: NodeId, r: Room)
    requires SystemOk(sys) && Sequencer.Inv(sys.db) && Runnable(sys, steps)
    ensures Gapless(Run(sys, steps), r)
    ensures HeardOf(InRoom(sys.db.log, r), InRoom(Run(sys, steps).db.log, r), HeardRows(sys, steps, n, r),
                    AllHeard(sys, steps, n, r))
    decreases |steps|
  {
    var log := InRoom(sys.db.log, r);
    if steps == [] {
      assert log[|log|..] == [];
      assert Sequencer.RoomInv(sys.db, r);
    } else {
      RunFirst(sys, steps);
      NumberingKept(sys, steps[0]);
      LogStep(sys, steps[0], r);
      var sys1 := Apply(sys, steps[0]);
      HeardRun(sys1, steps[1..], n, r);
      HeardCons(log, Committed(sys, steps[0], r), InRoom(Run(sys1, steps[1..]).db.log, r), Listens(sys, n, r),
                HeardRows(sys1, steps[1..], n, r), AllHeard(sys1, steps[1..], n, r));
    }
  }

  // --- Undisturbed runs ------------------------------------------------------------------------------

  /** The node listens to the room and has the socket registered for it. */
  ghost predicate Watching(sys: System, n: NodeId, s: Socket, r: Room) {
    Listens(sys, n, r) && Registered(sys, n, s, r)
  }

  /** In every state of the run the room is listened to and the socket registered, and every step is harmless. */
  ghost predicate Undisturbed(sys: System, steps: seq<Step>, n: NodeId, s: Socket, r: Room)
    requires SystemOk(sys) && Runnable(sys, steps)
    decreases |steps|
  {
    Watching(sys, n, s, r) &&
    (steps != [] ==>
      Harmless(steps[0], n, s) &&
      (ApplyOk(sys, steps[0]); Undisturbed(Apply(sys, steps[0]), steps[1..], n, s, r)))
  }

  lemma {:induction false} UndisturbedHearsAll(sys: System, steps: seq<Step>, n: NodeId, s: Socket, r: Room)
    requires SystemOk(sys) && Runnable(sys, steps) && Undisturbed(sys, steps, n, s, r)
    ensures Attached(sys, steps, n, s, r) && AllHeard(sys, steps, n, r)
    decreases |steps|
  {
    if steps != [] {
      RunFirst(sys, steps);
      UndisturbedHearsAll(Apply(sys, steps[0]), steps[1..], n, s, r);
    }
  }

  /** What an undisturbed stretch of a run does to a socket's stream. */
  ghost predicate GrowsWithLog(sys: System, sys': System, n: NodeId, s: Socket, r: Room) {
    var log, log' := InRoom(sys.db.log, r), InRoom(sys'.db.log, r);
    && n in sys.nodes && n in sys'.nodes
    && log <= log'
    && Stream(sys'.nodes[n], s, r) == Stream(sys.nodes[n], s, r) + log'[|log|..]
  }

  /** While undisturbed, the socket's stream grows by exactly the rows committed meanwhile. */
  lemma {:induction false} SeamRun(sys: System, steps: seq<Step>, n: NodeId, s: Socket, r: Room)
    requires SystemOk(sys) && Sequencer.Inv(sys.db) && Runnable(sys, steps) && Undisturbed(sys, steps, n, s, r)
    ensures GrowsWithLog(sys, Run(sys, steps), n, s, r)
  {
    UndisturbedHearsAll(sys, steps, n, s, r);
    AttachedRun(sys, steps, n, s, r);
    HeardRun(sys, steps, n, r);
  }

  /** A state after itself. */
  lemma {:induction false} StillGrows(sys: System, n: NodeId, s: Socket, r: Room)
    requires n in sys.nodes
    ensures GrowsWithLog(sys, sys, n, s, r)
  {
    var log, stream := InRoom(sys.db.log, r), Stream(sys.nodes[n], s, r);
    assert log[|log|..] == [] && stream + [] == stream;
  }

  /** Each row beyond `lastSeen` is in the page read from `log0`, or in what followed it, or in the
      stretch a page of limited size leaves out. */
  ghost predicate SeamCovers(page: History.Reply, stream: seq<Message>, log0: seq<Message>, log1: seq<Message>,
                             lastSeen: nat)
  {
    forall i :: lastSeen <= i < |log1| ==>
      log1[i] in page.messages || log1[i] in stream || page.nextCursor <= i < |log0|
  }

  lemma {:induction false} PageCovers(stream: seq<Message>, log0: seq<Message>, log1: seq<Message>, lastSeen: nat)
    requires log0 <= log1 && Numbered(log0, 1, |log0| + 1) && Numbered(log1, 1, |log1| + 1)
    ensures SeamCovers(History.Page(log0, lastSeen), stream + log1[|log0|..], log0, log1, lastSeen)
    ensures |log0| <= lastSeen + 100 ==> |log0| <= History.Page(log0, lastSeen).nextCursor
  {
    History.PageOfLog(log0, lastSeen);
    var page := History.Page(log0, lastSeen);
    forall i | lastSeen <= i < |log1|
      ensures log1[i] in page.messages || log1[i] in stream + log1[|log0|..] || page.nextCursor <= i < |log0|
    {
      if i >= |log0| {
        assert log1[i] == log1[|log0|..][i - |log0|];
      } else if i < page.nextCursor {
        assert page.messages[i - lastSeen] == log0[i] == log1[i];
      }
    }
  }

  lemma {:induction false} InvGapless(sys: System, r: Room)
    requires Inv(sys)
    ensures Gapless(sys, r)
  {
    assert Sequencer.RoomInv(sys.db, r);
  }

  /** The seam between a history page read in state `sys0` and the live stream of a later state. */
  ghost predicate SeamClosed(sys0: System, sys1: System, n: NodeId, s: Socket, r: Room, lastSeen: nat) {
    var log0, log1 := InRoom(sys0.db.log, r), InRoom(sys1.db.log, r);
    var page := History.Page(log0, lastSeen);
    && GrowsWithLog(sys0, sys1, n, s, r)
    && SeamCovers(page, Stream(sys1.nodes[n], s, r), log0, log1, lastSeen)
    && (|log0| <= lastSeen + 100 ==> |log0| <= page.nextCursor)
  }

  lemma {:induction false} SeamFrom(sys0: System, sys1: System, n: NodeId, s: Socket, r: Room, lastSeen: nat)
    requires Gapless(sys0, r) && Gapless(sys1, r) && GrowsWithLog(sys0, sys1, n, s, r)
    ensures SeamClosed(sys0, sys1, n, s, r, lastSeen)
  {
    PageCovers(Stream(sys0.nodes[n], s, r), InRoom(sys0.db.log, r), InRoom(sys1.db.log, r), lastSeen);
  }

  /** No gap at the join seam. The history query of a join reads its snapshot in any reachable state in
      which the room is listened to and the socket registered; then anything harmless happens. Every row
      committed by then beyond `lastSeen` is in the history page, or has been handed to the socket or is
      still on its way to it, or lies between the page's cursor and the snapshot's end, where the next
      page begins; that last stretch is empty for a backlog of at most 100. What was committed after the
      snapshot ends the socket's stream, complete and in order. */
  lemma {:induction false} JoinSeam(before: seq<Step>, sys0: System, after: seq<Step>, sys1: System,
                                    n: NodeId, s: Socket, r: Room, lastSeen: nat)
    requires Reaches(Initial(), before, sys0) && Reaches(sys0, after, sys1)
    requires Undisturbed(sys0, after, n, s, r)
    ensures SeamClosed(sys0, sys1, n, s, r, lastSeen)
  {
    JoinGrows(before, sys0, after, sys1, n, s, r);
    SeamFrom(sys0, sys1, n, s, r, lastSeen);
  }

  lemma {:induction false} JoinGrows(before: seq<Step>, sys0: System, after: seq<Step>, sys1: System,
                                     n: NodeId, s: Socket, r: Room)
    requires Reaches(Initial(), before, sys0) && Reaches(sys0, after, sys1)
    requires Undisturbed(sys0, after, n, s, r)
    ensures Gapless(sys0, r) && Gapless(sys1, r) && GrowsWithLog(sys0, sys1, n, s, r)
  {
    EmptyInv();
    RunInv(Initial(), before);
    InvGapless(sys0, r);
    SeamRun(sys0, after, n, s, r);
    RunInv(sys0, after);
    InvGapless(sys1, r);
  }

  // --- When the seam has a gap -----------------------------------------------------------------------

  /** Each row of `log1` beyond `lastSeen` is in the page read from `log0` or in the stream. */
  ghost predicate Complete(log0: seq<Message>, log1: seq<Message>, stream: seq<Message>, lastSeen: nat) {
    var page := History.Page(log0, lastSeen);
    forall i :: lastSeen <= i < |log1| ==> log1[i] in page.messages || log1[i] in stream
  }

  /** Each row of `log0` that the page leaves out is in the stream. */
  ghost predicate RestIn(log0: seq<Message>, stream: seq<Message>, lastSeen: nat) {
    forall i :: History.Page(log0, lastSeen).nextCursor <= i < |log0| ==> log0[i] in stream
  }

  /** Every row beyond `lastSeen` that `sys1` has is in the history page read in `sys0`, or was handed to the
      socket, or is on its way to it. */
  ghost predicate NoGap(sys0: System, sys1: System, n: NodeId, s: Socket, r: Room, lastSeen: nat)
    requires n in sys1.nodes
  {
    Complete(InRoom(sys0.db.log, r), InRoom(sys1.db.log, r), Stream(sys1.nodes[n], s, r), lastSeen)
  }

  /** The rows the page leaves out were in flight to the socket when the page was read. */
  ghost predicate RestInFlight(sys0: System, n: NodeId, s: Socket, r: Room, lastSeen: nat)
    requires n in sys0.nodes
  {
    RestIn(InRoom(sys0.db.log, r), Stream(sys0.nodes[n], s, r), lastSeen)
  }

  lemma {:induction false} LeftOut(log0: seq<Message>, log1: seq<Message>, stream: seq<Message>, lastSeen: nat, i: nat)
    requires log0 <= log1 && Numbered(log0, 1, |log0| + 1) && Numbered(log1, 1, |log1| + 1)
    requires History.Page(log0, lastSeen).nextCursor <= i < |log0|
    ensures log1[i] == log0[i] && log0[i] !in History.Page(log0, lastSeen).messages
    ensures log0[i] in stream + log1[|log0|..] <==> log0[i] in stream
  {
    History.PageOfLog(log0, lastSeen);
    var page := History.Page(log0, lastSeen);
    assert forall k :: 0 <= k < |page.messages| ==> page.messages[k].seqNo == lastSeen + 1 + k;
    assert forall k :: 0 <= k < |log1[|log0|..]| ==> log1[|log0|..][k].seqNo == |log0| + k + 1;
    assert log0[i].seqNo == i + 1;
  }

  lemma {:induction false} CompleteIff(log0: seq<Message>, log1: seq<Message>, stream: seq<Message>, lastSeen: nat)
    requires log0 <= log1 && Numbered(log0, 1, |log0| + 1) && Numbered(log1, 1, |log1| + 1)
    ensures Complete(log0, log1, stream + log1[|log0|..], lastSeen) <==> RestIn(log0, stream, lastSeen)
  {
    var page := History.Page(log0, lastSeen);
    assert lastSeen <= page.nextCursor by { History.PageOfLog(log0, lastSeen); }
    PageCovers(stream, log0, log1, lastSeen);
    forall i | page.nextCursor <= i < |log0|
      ensures log1[i] == log0[i] && log0[i] !in page.messages
      ensures log0[i] in stream + log1[|log0|..] <==> log0[i] in stream
    {
      LeftOut(log0, log1, stream, lastSeen, i);
    }
  }

  /** Exactly when the seam has no gap: when every row the page leaves out was in flight to the socket
      already. */
  lemma {:induction false} SeamGapIff(sys0: System, sys1: System, n: NodeId, s: Socket, r: Room, lastSeen: nat)
    requires Gapless(sys0, r) && Gapless(sys1, r) && GrowsWithLog(sys0, sys1, n, s, r)
    ensures NoGap(sys0, sys1, n, s, r, lastSeen) <==> RestInFlight(sys0, n, s, r, lastSeen)
  {
    CompleteIff(InRoom(sys0.db.log, r), InRoom(sys1.db.log, r), Stream(sys0.nodes[n], s, r), lastSeen);
  }

  /** None of the rows of `log0` that the page leaves out is in the stream. */
  ghost predicate NoneIn(log0: seq<Message>, stream: seq<Message>, lastSeen: nat) {
    forall i :: History.Page(log0, lastSeen).nextCursor <= i < |log0| ==> log0[i] !in stream
  }

  lemma {:induction false} RestInIff(log0: seq<Message>, stream: seq<Message>, lastSeen: nat)
    requires Numbered(log0, 1, |log0| + 1) && NoneIn(log0, stream, lastSeen)
    ensures RestIn(log0, stream, lastSeen) <==> |log0| <= lastSeen + 100
  {
    var cursor := History.Page(log0, lastSeen).nextCursor;
    History.PageOfLog(log0, lastSeen);
    if cursor < |log0| {
      assert log0[cursor] !in stream;
    }
  }

  /** With none of the rows the page leaves out in flight, there is no gap exactly for a backlog of at most
      100: a longer one is left to the next page. */
  lemma {:induction false} BacklogGapIff(sys0: System, sys1: System, n: NodeId, s: Socket, r: Room, lastSeen: nat)
    requires Gapless(sys0, r) && Gapless(sys1, r) && GrowsWithLog(sys0, sys1, n, s, r)
    requires NoneIn(InRoom(sys0.db.log, r), Stream(sys0.nodes[n], s, r), lastSeen)
    ensures NoGap(sys0, sys1, n, s, r, lastSeen) <==> |InRoom(sys0.db.log, r)| <= lastSeen + 100
  {
    SeamGapIff(sys0, sys1, n, s, r, lastSeen);
    RestInIff(InRoom(sys0.db.log, r), Stream(sys0.nodes[n], s, r), lastSeen);
  }

  /** The same over runs: the gap of a join whose history query reads after `before`. */
  lemma {:induction false} JoinGapIff(before: seq<Step>, sys0: System, after: seq<Step>, sys1: System,
                                      n: NodeId, s: Socket, r: Room, lastSeen: nat)
    requires Reaches(Initial(), before, sys0) && Reaches(sys0, after, sys1)
    requires Undisturbed(sys0, after, n, s, r)
    ensures n in sys0.nodes && n in sys1.nodes
    ensures NoGap(sys0, sys1, n, s, r, lastSeen) <==> RestInFlight(sys0, n, s, r, lastSeen)
  {
    JoinGrows(before, sys0, after, sys1, n, s, r);
    SeamGapIff(sys0, sys1, n, s, r, lastSeen);
  }

  // --- A node that may not be listening yet -------------------------------------------------------------

  /** Every row of `log1` from the page's cursor on is in the stream. */
  ghost predicate FromCursor(log0: seq<Message>, log1: seq<Message>, stream: seq<Message>, lastSeen: nat) {
    forall i :: History.Page(log0, lastSeen).nextCursor <= i < |log1| ==> log1[i] in stream
  }

  lemma {:induction false} InPageIff(log0: seq<Message>, log1: seq<Message>, lastSeen: nat, i: nat)
    requires log0 <= log1 && Numbered(log0, 1, |log0| + 1) && Numbered(log1, 1, |log1| + 1)
    requires lastSeen <= i < |log1|
    ensures log1[i] in History.Page(log0, lastSeen).messages <==> i < History.Page(log0, lastSeen).nextCursor
  {
    var page := History.Page(log0, lastSeen);
    History.PageOfLog(log0, lastSeen);
    if i < page.nextCursor {
      assert page.messages[i - lastSeen] == log0[i];
    } else {
      assert forall k :: 0 <= k < |page.messages| ==> page.messages[k].seqNo == lastSeen + 1 + k;
      assert log1[i].seqNo == i + 1;
    }
  }

  lemma {:induction false} CompleteFromCursor(log0: seq<Message>, log1: seq<Message>, stream: seq<Message>,
                                              lastSeen: nat)
    requires log0 <= log1 && Numbered(log0, 1, |log0| + 1) && Numbered(log1, 1, |log1| + 1)
    ensures Complete(log0, log1, stream, lastSeen) <==> FromCursor(log0, log1, stream, lastSeen)
  {
    assert lastSeen <= History.Page(log0, lastSeen).nextCursor by { History.PageOfLog(log0, lastSeen); }
    forall i | lastSeen <= i < |log1|
      ensures log1[i] in History.Page(log0, lastSeen).messages <==> i < History.Page(log0, lastSeen).nextCursor
    {
      InPageIff(log0, log1, lastSeen, i);
    }
  }

  lemma {:induction false} EitherSide(log0: seq<Message>, log1: seq<Message>, stream: seq<Message>,
                                      heard: seq<Message>, i: nat)
    requires log0 <= log1 && Numbered(log1, 1, |log1| + 1) && i < |log1|
    requires Within(stream, 0, |log0|) && Within(heard, |log0|, |log1|)
    ensures i < |log0| ==> (log1[i] in stream + heard <==> log0[i] in stream)
    ensures i >= |log0| ==> (log1[i] in stream + heard <==> log1[i] in heard)
  {
    assert log1[i].seqNo == i + 1;
    if i < |log0| {
      assert log1[i] !in heard;
    } else {
      assert log1[i] !in stream;
    }
  }

  /** For a client that is not ahead of the log, with everything in `stream` from before the page and
      everything in `heard` from after it. */
  lemma {:induction false} FromCursorIff(log0: seq<Message>, log1: seq<Message>, stream: seq<Message>,
                                         heard: seq<Message>, all: bool, lastSeen: nat)
    requires Numbered(log0, 1, |log0| + 1) && Numbered(log1, 1, |log1| + 1) && lastSeen <= |log0|
    requires Within(stream, 0, |log0|) && HeardOf(log0, log1, heard, all)
    ensures FromCursor(log0, log1, stream + heard, lastSeen) <==> RestIn(log0, stream, lastSeen) && all
  {
    assert History.Page(log0, lastSeen).nextCursor <= |log0| by { History.PageOfLog(log0, lastSeen); }
    forall i | 0 <= i < |log1|
      ensures i < |log0| ==> (log1[i] in stream + heard <==> log0[i] in stream)
      ensures i >= |log0| ==> (log1[i] in stream + heard <==> log1[i] in heard)
    {
      EitherSide(log0, log1, stream, heard, i);
    }
    if all {
      assert forall i :: |log0| <= i < |log1| ==> log1[i] == heard[i - |log0|];
    }
  }

  lemma {:induction false} StreamBefore(sys: System, n: NodeId, s: Socket, r: Room)
    requires Inv(sys) && n in sys.nodes
    ensures Within(Stream(sys.nodes[n], s, r), 0, |InRoom(sys.db.log, r)|)
  {
    assert StreamInv(sys.db, sys.nodes[n], s, r);
  }

  lemma {:induction false} SeamBefore(before: seq<Step>, sys: System, r: Room)
    requires Reaches(Initial(), before, sys)
    ensures Inv(sys) && Gapless(sys, r)
  {
    EmptyInv();
    RunInv(Initial(), before);
    InvGapless(sys, r);
  }

  /** The gap by what was in flight before the page (`stream`) and what was heard after it. */
  lemma {:induction false} GapFrom(sys0: System, sys1: System, heard: seq<Message>, all: bool,
                                   n: NodeId, s: Socket, r: Room, lastSeen: nat)
    requires n in sys0.nodes && n in sys1.nodes && Gapless(sys0, r) && Gapless(sys1, r)
    requires HeardOf(InRoom(sys0.db.log, r), InRoom(sys1.db.log, r), heard, all)
    requires Stream(sys1.nodes[n], s, r) == Stream(sys0.nodes[n], s, r) + heard
    requires Within(Stream(sys0.nodes[n], s, r), 0, |InRoom(sys0.db.log, r)|)
    ensures NoGap(sys0, sys1, n, s, r, lastSeen) <==>
            FromCursor(InRoom(sys0.db.log, r), InRoom(sys1.db.log, r), Stream(sys0.nodes[n], s, r) + heard, lastSeen)
    ensures lastSeen <= |InRoom(sys0.db.log, r)| ==>
              (NoGap(sys0, sys1, n, s, r, lastSeen) <==> RestInFlight(sys0, n, s, r, lastSeen) && all)
  {
    var log0, log1, stream := InRoom(sys0.db.log, r), InRoom(sys1.db.log, r), Stream(sys0.nodes[n], s, r);
    CompleteFromCursor(log0, log1, stream + heard, lastSeen);
    if lastSeen <= |log0| {
      FromCursorIff(log0, log1, stream, heard, all, lastSeen);
    }
  }

  lemma {:induction false} HeardSeam(sys0: System, after: seq<Step>, sys1: System, n: NodeId, s: Socket, r: Room)
    requires Sequencer.Inv(sys0.db) && Reaches(sys0, after, sys1) && Attached(sys0, after, n, s, r)
    ensures n in sys0.nodes && n in sys1.nodes
    ensures Stream(sys1.nodes[n], s, r) == Stream(sys0.nodes[n], s, r) + HeardRows(sys0, after, n, r)
  {
    AttachedRun(sys0, after, n, s, r);
  }

  /** Exactly when the seam of a registered socket has no gap, listened to or not: when every row from the
      page's cursor on was in flight when the page was read, or committed later while the node listened. For
      a client that is not ahead of the log, by what can be read off the run: when every row the page leaves
      out was in flight already and no row was committed while the node did not listen. */
  lemma {:induction false} HeardGapIff(before: seq<Step>, sys0: System, after: seq<Step>, sys1: System,
                                       n: NodeId, s: Socket, r: Room, lastSeen: nat)
    requires Reaches(Initial(), before, sys0) && Reaches(sys0, after, sys1) && Attached(sys0, after, n, s, r)
    ensures n in sys0.nodes && n in sys1.nodes
    ensures NoGap(sys0, sys1, n, s, r, lastSeen) <==>
            FromCursor(InRoom(sys0.db.log, r), InRoom(sys1.db.log, r),
                       Stream(sys0.nodes[n], s, r) + HeardRows(sys0, after, n, r), lastSeen)
    ensures lastSeen <= |InRoom(sys0.db.log, r)| ==>
              (NoGap(sys0, sys1, n, s, r, lastSeen) <==>
               RestInFlight(sys0, n, s, r, lastSeen) && AllHeard(sys0, after, n, r))
  {
    SeamBefore(before, sys0, r);
    HeardSeam(sys0, after, sys1, n, s, r);
    StreamBefore(sys0, n, s, r);
    HeardRun(sys0, after, n, r);
    GapFrom(sys0, sys1, HeardRows(sys0, after, n, r), AllHeard(sys0, after, n, r), n, s, r, lastSeen);
  }

  /** The node answers no command in the run. */
  predicate Unanswered(steps: seq<Step>, n: NodeId) {
    OnNode(n, Listen(ListenManager.Serve(true))) !in steps
  }

  lemma {:induction false} DeafStep(sys: System, step: Step, n: NodeId, r: Room)
    requires SystemOk(sys) && Enabled(sys, step) && step != OnNode(n, Listen(ListenManager.Serve(true)))
    requires n in sys.nodes && r !in sys.nodes[n].pg.listening
    ensures n in Apply(sys, step).nodes && r !in Apply(sys, step).nodes[n].pg.listening
  {
    if step.OnNode? && step.node == n {
      DeafNode(sys.nodes[n], step.nodeStep, r);
    }
  }

  lemma {:induction false} DeafNode(node: Node, step: NodeStep, r: Room)
    requires NodeOk(node) && NodeEnabled(node, step) && step != Listen(ListenManager.Serve(true))
    requires r !in node.pg.listening
    ensures r !in ApplyNode(node, step).pg.listening
  {
    if step.Close? {
      UnsubscribeAllListening(node.pg, Registry.CleanupCalls(node.reg, step.socket));
    }
  }

  lemma {:induction false} UnsubscribeAllListening(m: ListenManager.Manager, rooms: seq<Room>)
    requires ListenManager.WellFormed(m)
    ensures Registry.UnsubscribeAll(m, rooms).listening == m.listening
    decreases |rooms|
  {
    if rooms != [] {
      UnsubscribeAllListening(m, rooms[..|rooms| - 1]);
    }
  }

  lemma {:induction false} DeafRun(sys: System, steps: seq<Step>, sys': System, n: NodeId, r: Room)
    requires Reaches(sys, steps, sys') && Unanswered(steps, n)
    requires n in sys.nodes && r !in sys.nodes[n].pg.listening
    ensures n in sys'.nodes && r !in sys'.nodes[n].pg.listening
    decreases |steps|
  {
    if steps != [] {
      assert steps[0] in steps;
      ReachesFirst(sys, steps, sys');
      DeafStep(sys, steps[0], n, r);
      assert forall step :: step in steps[1..] ==> step in steps;
      DeafRun(Apply(sys, steps[0]), steps[1..], sys', n, r);
    }
  }

  lemma AllHeardFirst(sys: System, steps: seq<Step>, n: NodeId, r: Room)
    requires SystemOk(sys) && Runnable(sys, steps) && steps != []
    requires SystemOk(Apply(sys, steps[0])) && Runnable(Apply(sys, steps[0]), steps[1..])
    ensures AllHeard(sys, steps, n, r) <==>
            && (Committed(sys, steps[0], r) != [] ==> Listens(sys, n, r))
            && AllHeard(Apply(sys, steps[0]), steps[1..], n, r)
  {
  }

  lemma {:induction false} AllHeardLater(sys: System, a: seq<Step>, sys1: System, b: seq<Step>, sys2: System,
                                         n: NodeId, r: Room)
    requires Reaches(sys, a, sys1) && Reaches(sys1, b, sys2) && Reaches(sys, a + b, sys2)
    ensures AllHeard(sys, a + b, n, r) ==> AllHeard(sys1, b, n, r)
    decreases |a|
  {
    if a == [] {
      assert a + b == b;
    } else {
      var steps := a + b;
      assert steps[0] == a[0] && steps[1..] == a[1..] + b;
      ReachesFirst(sys, a, sys1);
      ReachesFirst(sys, steps, sys2);
      AllHeardFirst(sys, steps, n, r);
      AllHeardLater(Apply(sys, a[0]), a[1..], sys1, b, sys2, n, r);
    }
  }

  /** A page read while the room's LISTEN is still unanswered: a row committed before the answer is a gap for
      good, whatever the count, the registration and the answer to come. */
  lemma {:induction false} UnansweredListenLoses(before: seq<Step>, sys0: System, early: seq<Step>, sys1: System,
                                                 late: seq<Step>, sys2: System, n: NodeId, s: Socket, r: Room,
                                                 lastSeen: nat)
    requires Reaches(Initial(), before, sys0) && Reaches(sys0, early, sys1) && Reaches(sys1, late, sys2)
    requires Reaches(sys0, early + late, sys2) && Attached(sys0, early + late, n, s, r)
    requires lastSeen <= |InRoom(sys0.db.log, r)|
    requires r !in sys0.nodes[n].pg.listening && Unanswered(early, n)
    requires late != [] && Committed(sys1, late[0], r) != []
    ensures n in sys2.nodes && !NoGap(sys0, sys2, n, s, r, lastSeen)
  {
    HeardGapIff(before, sys0, early + late, sys2, n, s, r, lastSeen);
    DeafRun(sys0, early, sys1, n, r);
    AllHeardLater(sys0, early, sys1, late, sys2, n, r);
    ReachesFirst(sys1, late, sys2);
    AllHeardFirst(sys1, late, n, r);
  }

  // --- Staying listened to ---------------------------------------------------------------------------

  /** The node counts a subscription for the room and has the socket registered for it. */
  ghost predicate Subscribed(sys: System, n: NodeId, s: Socket, r: Room) {
    && n in sys.nodes
    && 0 < ListenManager.Count(sys.nodes[n].pg, r) && s in Registry.Sockets(sys.nodes[n].reg, r)
  }

  /** In every state of the run the room has a subscription and the socket is registered; every step is
      harmless and the node's session is not lost. Commands may fail. */
  ghost predicate StaysSubscribed(sys: System, steps: seq<Step>, n: NodeId, s: Socket, r: Room)
    requires SystemOk(sys) && Runnable(sys, steps)
    decreases |steps|
  {
    Subscribed(sys, n, s, r) &&
    (steps != [] ==>
      && Harmless(steps[0], n, s) && steps[0] != OnNode(n, Listen(ListenManager.SessionLost))
      && (ApplyOk(sys, steps[0]); StaysSubscribed(Apply(sys, steps[0]), steps[1..], n, s, r)))
  }

  lemma StaysFirst(sys: System, steps: seq<Step>, sys1: System, rest: seq<Step>, n: NodeId, s: Socket, r: Room)
    requires SystemOk(sys) && Runnable(sys, steps) && steps != [] && sys1 == Apply(sys, steps[0]) && rest == steps[1..]
    requires Subscribed(sys, n, s, r) && Harmless(steps[0], n, s)
    requires steps[0] != OnNode(n, Listen(ListenManager.SessionLost))
    requires SystemOk(sys1) && Runnable(sys1, rest) && StaysSubscribed(sys1, rest, n, s, r)
    ensures StaysSubscribed(sys, steps, n, s, r)
  {
  }

  lemma FirstAndRest<T>(x: T, rest: seq<T>)
    ensures [x] + rest != [] && ([x] + rest)[0] == x && ([x] + rest)[1..] == rest
  {
  }

  lemma {:induction false} StaysCons(sys: System, step: Step, rest: seq<Step>, n: NodeId, s: Socket, r: Room)
    requires SystemOk(sys) && Enabled(sys, step) && SystemOk(Apply(sys, step)) && Runnable(Apply(sys, step), rest)
    requires Runnable(sys, [step] + rest) && Subscribed(sys, n, s, r) && Harmless(step, n, s)
    requires step != OnNode(n, Listen(ListenManager.SessionLost))
    requires StaysSubscribed(Apply(sys, step), rest, n, s, r)
    ensures StaysSubscribed(sys, [step] + rest, n, s, r)
  {
    FirstAndRest(step, rest);
    StaysFirst(sys, [step] + rest, Apply(sys, step), rest, n, s, r);
  }

  lemma {:induction false} UnsubscribeAllActive(m: ListenManager.Manager, rooms: seq<Room>, r: Room)
    requires ListenManager.WellFormed(m) && ListenManager.Active(m, r)
    requires 0 < ListenManager.Count(Registry.UnsubscribeAll(m, rooms), r)
    ensures ListenManager.Active(Registry.UnsubscribeAll(m, rooms), r)
    decreases |rooms|
  {
    if rooms != [] {
      var front, last := rooms[..|rooms| - 1], rooms[|rooms| - 1];
      var m1 := Registry.UnsubscribeAll(m, front);
      ListenManager.CountStep(m1, ListenManager.Unsubscribe(last), r);
      UnsubscribeAllActive(m, front, r);
      ListenManager.CountedListensStep(m1, ListenManager.Unsubscribe(last), r);
    }
  }

  lemma {:induction false} ActiveStep(node: Node, step: NodeStep, r: Room)
    requires NodeOk(node) && NodeEnabled(node, step) && ListenManager.Active(node.pg, r)
    requires step.Listen? ==> !step.step.SessionLost? && !step.step.Reconnect?
    requires 0 < ListenManager.Count(ApplyNode(node, step).pg, r)
    ensures ListenManager.Active(ApplyNode(node, step).pg, r)
  {
    match step
    case Listen(ls) => ListenManager.CountedListensStep(node.pg, ls, r);
    case Leave(_, q) =>
      if ApplyNode(node, step).pg != node.pg {
        ListenManager.CountedListensStep(node.pg, ListenManager.Unsubscribe(q), r);
      }
    case Close(s) => UnsubscribeAllActive(node.pg, Registry.CleanupCalls(node.reg, s), r);
    case _ =>
  }

  lemma {:induction false} StillActive(sys: System, step: Step, n: NodeId, r: Room)
    requires SystemOk(sys) && Enabled(sys, step) && n in sys.nodes && n in Apply(sys, step).nodes
    requires step != OnNode(n, Listen(ListenManager.Reconnect)) && step != OnNode(n, Listen(ListenManager.SessionLost))
    requires ListenManager.Active(sys.nodes[n].pg, r)
    requires 0 < ListenManager.Count(Apply(sys, step).nodes[n].pg, r)
    ensures ListenManager.Active(Apply(sys, step).nodes[n].pg, r)
  {
    if step.OnNode? && step.node == n {
      ActiveStep(sys.nodes[n], step.nodeStep, r);
    } else {
      assert Apply(sys, step).nodes[n].pg == sys.nodes[n].pg;
    }
  }

  /** A subscription that is counted throughout keeps the room listened to, so the stretch is undisturbed. */
  lemma {:induction false} SubscribedIsUndisturbed(sys: System, steps: seq<Step>, n: NodeId, s: Socket, r: Room)
    requires SystemOk(sys) && Runnable(sys, steps) && StaysSubscribed(sys, steps, n, s, r)
    requires ListenManager.Active(sys.nodes[n].pg, r)
    ensures Undisturbed(sys, steps, n, s, r)
    decreases |steps|
  {
    if steps != [] {
      RunFirst(sys, steps);
      var sys1 := Apply(sys, steps[0]);
      assert StaysSubscribed(sys1, steps[1..], n, s, r);
      assert Subscribed(sys1, n, s, r);
      StillActive(sys, steps[0], n, r);
      SubscribedIsUndisturbed(sys1, steps[1..], n, s, r);
    }
  }

  /** The join seam from what the node itself counts: the room's LISTEN has been answered and no UNLISTEN is
      queued when the history is read, and from then on the room's count stays positive and the session and
      client stay up. */
  lemma {:induction false} SubscribedSeam(before: seq<Step>, sys0: System, after: seq<Step>, sys1: System,
                                          n: NodeId, s: Socket, r: Room, lastSeen: nat)
    requires Reaches(Initial(), before, sys0) && Reaches(sys0, after, sys1)
    requires n in sys0.nodes && ListenManager.Active(sys0.nodes[n].pg, r)
    requires StaysSubscribed(sys0, after, n, s, r)
    ensures SeamClosed(sys0, sys1, n, s, r, lastSeen)
  {
    SubscribedIsUndisturbed(sys0, after, n, s, r);
    JoinSeam(before, sys0, after, sys1, n, s, r, lastSeen);
  }
}
