/** Cursor readers against the database: what a reader sees at successive moments of a run is a growing
    gapless log, so catch-up and pagination hold over every interleaving of transactions. */
module Readers {
  import opened ChatTypes
  import Sequencer
  import History
  import Pagination

  /** The room's rows visible after the first steps of a run. */
  function Snapshot(steps: seq<Sequencer.Step>, r: Room): seq<Message> {
    InRoom(Sequencer.Run(Sequencer.EMPTY_DB, steps).log, r)
  }

  /** What a reader sees of the room at each moment, `runs(k)` being all that happened by moment k. */
  function Logs(runs: nat -> seq<Sequencer.Step>, r: Room): nat -> seq<Message> {
    (k: nat) => Snapshot(runs(k), r)
  }

  /** Ever longer runs of the database give a growing log. */
  lemma {:induction false} SnapshotsGrow(runs: nat -> seq<Sequencer.Step>, r: Room)
    requires forall k: nat :: Sequencer.Runnable(Sequencer.EMPTY_DB, runs(k)) && runs(k) <= runs(k + 1)
    ensures Growing(Logs(runs, r))
  {
    var logs := Logs(runs, r);
    forall k: nat ensures Numbered(logs(k), 1, |logs(k)| + 1) && logs(k) <= logs(k + 1) {
      assert Sequencer.Runnable(Sequencer.EMPTY_DB, runs(k)) && runs(k) <= runs(k + 1);
      Sequencer.GaplessSequencing(runs(k), r);
      var more := runs(k + 1)[|runs(k)|..];
      assert runs(k + 1) == runs(k) + more;
      Sequencer.RunConcat(Sequencer.EMPTY_DB, runs(k), more);
      Sequencer.HistoryGrows(Sequencer.Run(Sequencer.EMPTY_DB, runs(k)), more, r);
    }
  }

  /** Pagination and catch-up while transactions go on committing between the pages. */
  lemma {:induction false} ReadersUnderInserts(runs: nat -> seq<Sequencer.Step>, r: Room, limitStr: Option<string>,
                                               lastSeen: nat, k: nat)
    requires forall i: nat :: Sequencer.Runnable(Sequencer.EMPTY_DB, runs(i)) && runs(i) <= runs(i + 1)
    ensures var logs := Logs(runs, r);
            && Pagination.FollowAll(logs, limitStr) == Pagination.Descending(logs(0))
            && History.CaughtUp(logs, lastSeen, k)
  {
    var logs := Logs(runs, r);
    SnapshotsGrow(runs, r);
    Pagination.Traversal(logs, limitStr);
    History.CatchUpContiguous(logs, lastSeen, k);
  }
}
