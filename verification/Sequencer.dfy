/** Message numbering by the database triggers: concurrent insert transactions take the room's
    `room_sequences` row lock, receive `next_seq - 1`, queue a NOTIFY, and commit or abort.
    The environment is PostgreSQL's contract: an UPDATE locks its row until the transaction ends,
    and a commit publishes the transaction's notifications in the order they were raised. */
module Sequencer {
  import opened ChatTypes

  datatype TxId = TxId(id: nat)

  /** A `room_sequences` row: `next_seq` as committed, as seen by the lock holder, and that holder. */
  datatype Row = Row(committed: nat, current: nat, owner: Option<TxId>)

  /** An open transaction: the message rows it inserted and the notifications it raised. */
  datatype Tx = Tx(inserted: seq<Message>, notes: seq<Message>)

  const NO_TX := Tx([], [])

  datatype Db = Db(
    rows: map<Room, Row>,
    open: map<TxId, Tx>,
    log: seq<Message>,        // committed messages, in commit order
    published: seq<Message>)  // the notification stream

  const EMPTY_DB := Db(map[], map[], [], [])

  datatype Step =
    | CreateRoom(room: Room)
    | Insert(tx: TxId, room: Room, sender: User)
    | Commit(tx: TxId)
    | Abort(tx: TxId)

  function TxOf(d: Db, t: TxId): Tx {
    if t in d.open then d.open[t] else NO_TX
  }

  predicate Owns(d: Db, t: TxId, r: Room) {
    r in d.rows && d.rows[r].owner == Some(t)
  }

  /** An insert waits while another transaction holds the room's row. A missing room is not waited for. */
  predicate Enabled(d: Db, step: Step) {
    match step
    case Insert(t, r, _) => r !in d.rows || d.rows[r].owner == None || Owns(d, t, r)
    case CreateRoom(_) => true
    case Commit(t) => t in d.open
    case Abort(t) => t in d.open
  }

  function Release(d: Db, t: TxId, keep: bool): map<Room, Row> {
    map r | r in d.rows ::
      if d.rows[r].owner != Some(t) then d.rows[r]
      else
        var next := if keep then d.rows[r].current else d.rows[r].committed;
        Row(next, next, None)
  }

  function AbortTx(d: Db, t: TxId): Db {
    d.(rows := Release(d, t, false), open := d.open - {t})
  }

  function Apply(d: Db, step: Step): Db {
    match step
    case CreateRoom(r) =>
      if r in d.rows then d else d.(rows := d.rows[r := Row(1, 1, None)])
    case Insert(t, r, u) =>
      // Without a sequence row the trigger leaves NEW.seq null; the NOT NULL column fails the transaction.
      if r !in d.rows then AbortTx(d, t)
      else
        var next := d.rows[r].current + 1;
        var msg := Message(r, next - 1, u);
        d.(rows := d.rows[r := Row(d.rows[r].committed, next, Some(t))],
           open := d.open[t := Tx(TxOf(d, t).inserted + [msg], TxOf(d, t).notes + [msg])])
    case Commit(t) =>
      d.(rows := Release(d, t, true), open := d.open - {t},
         log := d.log + TxOf(d, t).inserted, published := d.published + TxOf(d, t).notes)
    case Abort(t) => AbortTx(d, t)
  }

  function Run(d: Db, steps: seq<Step>): Db
    decreases |steps|
  {
    if steps == [] then d else Run(Apply(d, steps[0]), steps[1..])
  }

  predicate Runnable(d: Db, steps: seq<Step>)
    decreases |steps|
  {
    steps == [] || (Enabled(d, steps[0]) && Runnable(Apply(d, steps[0]), steps[1..]))
  }

  lemma {:induction false} RunConcat(d: Db, a: seq<Step>, b: seq<Step>)
    ensures Run(d, a + b) == Run(Run(d, a), b)
    ensures Runnable(d, a + b) <==> Runnable(d, a) && Runnable(Run(d, a), b)
    decreases |a|
  {
    if a == [] {
      assert a + b == b;
    } else {
      assert (a + b)[1..] == a[1..] + b;
      RunConcat(Apply(d, a[0]), a[1..], b);
    }
  }

  /** Where room `r` stands: its committed numbers are 1..committed-1, and only the lock holder has
      uncommitted ones, which continue the committed ones. */
  ghost predicate RoomInv(d: Db, r: Room) {
    if r !in d.rows then
      InRoom(d.log, r) == []
    else
      var row := d.rows[r];
      && (if row.owner == None then row.current == row.committed else row.committed < row.current)
      && Numbered(InRoom(d.log, r), 1, row.committed)
  }

  ghost predicate TxInv(d: Db, t: TxId, r: Room) {
    var mine := InRoom(TxOf(d, t).inserted, r);
    if Owns(d, t, r) then t in d.open && Numbered(mine, d.rows[r].committed, d.rows[r].current)
    else mine == []
  }

  /** A transaction announces exactly the rows it inserts. */
  ghost predicate NotesInv(d: Db, t: TxId) {
    TxOf(d, t).inserted == TxOf(d, t).notes
  }

  ghost predicate Inv(d: Db) {
    && (forall r :: RoomInv(d, r))
    && (forall t, r :: TxInv(d, t, r))
    && (forall t :: NotesInv(d, t))
    && d.published == d.log
  }

  lemma EmptyInv()
    ensures Inv(EMPTY_DB)
  {
  }

  lemma {:induction false} InsertedInRoom(inserted: seq<Message>, msg: Message, x: Room)
    ensures InRoom(inserted + [msg], x) == InRoom(inserted, x) + if x == msg.room then [msg] else []
  {
    InRoomConcat(inserted, [msg], x);
    assert InRoom([msg], x) == if x == msg.room then [msg] else [];
  }

  lemma {:induction false} InsertInv(d: Db, t: TxId, r: Room, u: User)
    requires Inv(d) && Enabled(d, Insert(t, r, u)) && r in d.rows
    ensures Inv(Apply(d, Insert(t, r, u)))
  {
    var d' := Apply(d, Insert(t, r, u));
    var msg := Message(r, d.rows[r].current, u);
    assert RoomInv(d, r) && TxInv(d, t, r);
    forall x ensures RoomInv(d', x) {
      assert RoomInv(d, x);
    }
    forall s ensures NotesInv(d', s) { assert NotesInv(d, s); }
    forall s, x ensures TxInv(d', s, x) {
      assert TxInv(d, s, x);
      if s == t {
        InsertedInRoom(TxOf(d, t).inserted, msg, x);
      }
    }
  }

  /** What a commit adds to one room: the holder's numbers, which continue the committed ones. */
  lemma {:induction false} CommitRoom(d: Db, t: TxId, r: Room)
    requires Inv(d)
    ensures var rows := InRoom(TxOf(d, t).inserted, r);
            && InRoom(Apply(d, Commit(t)).log, r) == InRoom(d.log, r) + rows
            && Numbered(rows, |InRoom(d.log, r)| + 1, |InRoom(d.log, r)| + 1 + |rows|)
  {
    assert RoomInv(d, r) && TxInv(d, t, r);
    InRoomConcat(d.log, TxOf(d, t).inserted, r);
  }

  lemma {:induction false} CommitInv(d: Db, t: TxId)
    requires Inv(d) && t in d.open
    ensures Inv(Apply(d, Commit(t)))
  {
    var d' := Apply(d, Commit(t));
    assert NotesInv(d, t);
    forall r ensures RoomInv(d', r) {
      assert RoomInv(d, r) && TxInv(d, t, r);
      CommitRoom(d, t, r);
    }
    forall s, r ensures TxInv(d', s, r) {
      assert TxInv(d, s, r);
    }
    forall s ensures NotesInv(d', s) { assert NotesInv(d, s); }
  }

  lemma {:induction false} AbortInv(d: Db, t: TxId)
    requires Inv(d)
    ensures Inv(AbortTx(d, t))
  {
    var d' := AbortTx(d, t);
    forall r ensures RoomInv(d', r) {
      assert RoomInv(d, r);
    }
    forall s, r ensures TxInv(d', s, r) {
      assert TxInv(d, s, r);
    }
    forall s ensures NotesInv(d', s) { assert NotesInv(d, s); }
  }

  lemma {:induction false} StepInv(d: Db, step: Step)
    requires Inv(d) && Enabled(d, step)
    ensures Inv(Apply(d, step))
  {
    match step
    case CreateRoom(r) =>
      var d' := Apply(d, step);
      forall x ensures RoomInv(d', x) { assert RoomInv(d, x); }
      forall s, x ensures TxInv(d', s, x) { assert TxInv(d, s, x); }
      forall s ensures NotesInv(d', s) { assert NotesInv(d, s); }
    case Insert(t, r, u) =>
      if r in d.rows { InsertInv(d, t, r, u); } else { AbortInv(d, t); }
    case Commit(t) => CommitInv(d, t);
    case Abort(t) => AbortInv(d, t);
  }

  lemma {:induction false} RunInv(d: Db, steps: seq<Step>)
    requires Inv(d) && Runnable(d, steps)
    ensures Inv(Run(d, steps))
    decreases |steps|
  {
    if steps != [] {
      StepInv(d, steps[0]);
      RunInv(Apply(d, steps[0]), steps[1..]);
    }
  }

  /** Gapless serialised sequencing. In every interleaving of any number of transactions, a room's
      committed numbers are 1..next_seq-1, each once, committed in number order, and the notification
      stream is the committed log. */
  lemma {:induction false} GaplessSequencing(steps: seq<Step>, r: Room)
    requires Runnable(EMPTY_DB, steps)
    ensures var d := Run(EMPTY_DB, steps);
            && Numbered(InRoom(d.log, r), 1, if r in d.rows then d.rows[r].committed else 1)
            && d.published == d.log
  {
    EmptyInv();
    RunInv(EMPTY_DB, steps);
    assert RoomInv(Run(EMPTY_DB, steps), r);
  }

  lemma {:induction false} InRoomPrefix(log: seq<Message>, log': seq<Message>, r: Room)
    requires log <= log'
    ensures InRoom(log, r) <= InRoom(log', r)
  {
    InRoomConcat(log, log'[|log|..], r);
    assert log' == log + log'[|log|..];
  }

  /** Where a message stands in its room's view. */
  lemma {:induction false} Place(log: seq<Message>, i: nat)
    requires i < |log|
    ensures var view, at := InRoom(log, log[i].room), |InRoom(log[..i], log[i].room)|;
            && at < |view| && view[at] == log[i]
            && |InRoom(log[..i + 1], log[i].room)| == at + 1
  {
    var r := log[i].room;
    assert InRoom([log[i]], r) == [log[i]] + InRoom([], r);
    assert log[..i + 1] == log[..i] + [log[i]] && log == log[..i + 1] + log[i + 1..];
    InRoomConcat(log[..i], [log[i]], r);
    InRoomConcat(log[..i + 1], log[i + 1..], r);
  }

  /** The unique index on (room_id, seq) is never violated. */
  lemma {:induction false} SeqUnique(steps: seq<Step>, i: nat, j: nat)
    requires Runnable(EMPTY_DB, steps)
    requires i < j < |Run(EMPTY_DB, steps).log|
    ensures var log := Run(EMPTY_DB, steps).log;
            log[i].room == log[j].room ==> log[i].seqNo < log[j].seqNo
  {
    var log := Run(EMPTY_DB, steps).log;
    var r := log[i].room;
    GaplessSequencing(steps, r);
    if log[j].room == r {
      Place(log, i);
      Place(log, j);
      InRoomPrefix(log[..i + 1], log[..j], r);
    }
  }

  /** Committed history only grows: what one reader saw of a room is a prefix of what any later reader
      sees, so with `GaplessSequencing` every snapshot is a gap-free prefix. */
  lemma {:induction false} HistoryGrows(d: Db, steps: seq<Step>, r: Room)
    ensures d.log <= Run(d, steps).log
    ensures InRoom(d.log, r) <= InRoom(Run(d, steps).log, r)
    decreases |steps|
  {
    if steps != [] {
      HistoryGrows(Apply(d, steps[0]), steps[1..], r);
    }
    InRoomPrefix(d.log, Run(d, steps).log, r);
  }

  /** An aborted transaction leaves no trace in any row it locked, whatever it inserted; nor does one whose last
      insert fails for want of a room. */
  lemma {:induction false} AbortUndoes(d: Db, t: TxId, inserts: seq<(Room, User)>)
    requires Inv(d) && t !in d.open
    requires Runnable(d, Inserts(t, inserts))
    ensures Apply(Run(d, Inserts(t, inserts)), Abort(t)) == d
    ensures forall r, u :: r !in Run(d, Inserts(t, inserts)).rows ==>
              Apply(Run(d, Inserts(t, inserts)), Insert(t, r, u)) == d
  {
    assert AbortTx(d, t) == d by {
      forall r | r in d.rows ensures Release(d, t, false)[r] == d.rows[r] { assert TxInv(d, t, r); }
      assert Release(d, t, false) == d.rows;
      assert d.open - {t} == d.open;
    }
    InsertsKeep(d, d, t, inserts);
  }

  function Inserts(t: TxId, rooms: seq<(Room, User)>): seq<Step> {
    seq(|rooms|, i requires 0 <= i < |rooms| => Insert(t, rooms[i].0, rooms[i].1))
  }

  /** Every insert of `t` (also one that fails) leaves what an abort of `t` would restore unchanged. */
  lemma {:induction false} InsertsKeep(d: Db, base: Db, t: TxId, inserts: seq<(Room, User)>)
    requires Runnable(d, Inserts(t, inserts))
    requires AbortTx(d, t) == base
    requires forall r :: RoomInv(d, r)
    ensures AbortTx(Run(d, Inserts(t, inserts)), t) == base
    decreases |inserts|
  {
    if inserts != [] {
      var steps := Inserts(t, inserts);
      assert steps[1..] == Inserts(t, inserts[1..]);
      var d' := Apply(d, steps[0]);
      var r := inserts[0].0;
      forall x ensures RoomInv(d', x) { assert RoomInv(d, x); }
      assert RoomInv(d, r);
      assert AbortTx(d', t).rows == base.rows;
      assert AbortTx(d', t).open == base.open;
      InsertsKeep(d', base, t, inserts[1..]);
    }
  }

  // --- Read off the steps alone --------------------------------------------------------------------

  /** The rooms created so far. */
  function Created(steps: seq<Step>): set<Room> {
    if steps == [] then {}
    else Created(steps[..|steps| - 1]) +
         if steps[|steps| - 1].CreateRoom? then {steps[|steps| - 1].room} else {}
  }

  /** What a transaction has inserted since it last ended; an insert into a room that does not exist ends it. */
  function Uncommitted(steps: seq<Step>, t: TxId): seq<(Room, User)> {
    if steps == [] then []
    else
      var front, last := steps[..|steps| - 1], steps[|steps| - 1];
      match last
      case CreateRoom(_) => Uncommitted(front, t)
      case Insert(x, r, u) =>
        if x != t then Uncommitted(front, t)
        else if r in Created(front) then Uncommitted(front, t) + [(r, u)] else []
      case Commit(x) => if x == t then [] else Uncommitted(front, t)
      case Abort(x) => if x == t then [] else Uncommitted(front, t)
  }

  /** The transaction has inserted into the room and not ended. */
  ghost predicate Holds(steps: seq<Step>, t: TxId, r: Room) {
    exists u :: (r, u) in Uncommitted(steps, t)
  }

  /** What the commits have committed, in commit order. */
  function Committed(steps: seq<Step>): seq<(Room, User)> {
    if steps == [] then []
    else
      var front, last := steps[..|steps| - 1], steps[|steps| - 1];
      Committed(front) + if last.Commit? then Uncommitted(front, last.tx) else []
  }

  function Pairs(ms: seq<Message>): seq<(Room, User)> {
    seq(|ms|, i requires 0 <= i < |ms| => (ms[i].room, ms[i].sender))
  }

  /** What the steps say about the database. */
  ghost predicate Matches(d: Db, steps: seq<Step>) {
    && Inv(d)
    && d.rows.Keys == Created(steps)
    && (forall t :: Pairs(TxOf(d, t).inserted) == Uncommitted(steps, t))
    && (forall t :: t in d.open <==> Uncommitted(steps, t) != [])
    && Pairs(d.log) == Committed(steps)
  }

  lemma PairsConcat(a: seq<Message>, b: seq<Message>)
    ensures Pairs(a + b) == Pairs(a) + Pairs(b)
  {
  }

  lemma {:induction false} StepsSnoc(front: seq<Step>, last: Step, t: TxId)
    ensures Created(front + [last]) == Created(front) + if last.CreateRoom? then {last.room} else {}
    ensures Committed(front + [last]) == Committed(front) + if last.Commit? then Uncommitted(front, last.tx) else []
    ensures Uncommitted(front + [last], t) ==
            match last
            case CreateRoom(_) => Uncommitted(front, t)
            case Insert(x, r, u) =>
              if x != t then Uncommitted(front, t)
              else if r in Created(front) then Uncommitted(front, t) + [(r, u)] else []
            case Commit(x) => if x == t then [] else Uncommitted(front, t)
            case Abort(x) => if x == t then [] else Uncommitted(front, t)
  {
    assert (front + [last])[..|front|] == front;
  }

  lemma {:induction false} MatchesTx(d: Db, front: seq<Step>, last: Step, t: TxId)
    requires Matches(d, front) && Enabled(d, last)
    ensures Pairs(TxOf(Apply(d, last), t).inserted) == Uncommitted(front + [last], t)
    ensures t in Apply(d, last).open <==> Uncommitted(front + [last], t) != []
  {
    StepsSnoc(front, last, t);
    assert Pairs(TxOf(d, t).inserted) == Uncommitted(front, t);
    if last.Insert? && last.tx == t && last.room in d.rows {
      var msg := Message(last.room, d.rows[last.room].current, last.sender);
      PairsConcat(TxOf(d, t).inserted, [msg]);
    }
  }

  lemma {:induction false} MatchesStep(d: Db, front: seq<Step>, last: Step)
    requires Matches(d, front) && Enabled(d, last)
    ensures Matches(Apply(d, last), front + [last])
  {
    StepInv(d, last);
    forall t
      ensures Pairs(TxOf(Apply(d, last), t).inserted) == Uncommitted(front + [last], t)
      ensures t in Apply(d, last).open <==> Uncommitted(front + [last], t) != []
    {
      MatchesTx(d, front, last, t);
    }
    StepsSnoc(front, last, TxId(0));
    if last.Commit? {
      PairsConcat(d.log, TxOf(d, last.tx).inserted);
      assert Pairs(TxOf(d, last.tx).inserted) == Uncommitted(front, last.tx);
    }
    assert Apply(d, last).rows.Keys == Created(front + [last]);
  }

  lemma {:induction false} MatchesRun(steps: seq<Step>)
    requires Runnable(EMPTY_DB, steps)
    ensures Matches(Run(EMPTY_DB, steps), steps)
    decreases |steps|
  {
    if steps == [] {
      EmptyInv();
    } else {
      var front, last := steps[..|steps| - 1], steps[|steps| - 1];
      assert steps == front + [last];
      RunConcat(EMPTY_DB, front, [last]);
      assert [last][1..] == [];
      MatchesRun(front);
      MatchesStep(Run(EMPTY_DB, front), front, last);
    }
  }

  /** The log from the steps alone: over every run it holds exactly what the committed transactions inserted, room
      by room and sender by sender in commit order, and nothing of those that are open, were aborted or had an
      insert fail. With `GaplessSequencing`, which gives the numbers, this fixes every row. */
  lemma {:induction false} LogExact(steps: seq<Step>)
    requires Runnable(EMPTY_DB, steps)
    ensures Pairs(Run(EMPTY_DB, steps).log) == Committed(steps)
    ensures Run(EMPTY_DB, steps).rows.Keys == Created(steps)
  {
    MatchesRun(steps);
  }

  /** Which steps wait, from the steps alone: over every run, an insert waits exactly while another transaction
      has inserted into the room and not ended; a transaction can end exactly while it has inserted something. */
  lemma {:induction false} WaitsIff(steps: seq<Step>, t: TxId, r: Room, u: User)
    requires Runnable(EMPTY_DB, steps)
    ensures Enabled(Run(EMPTY_DB, steps), Insert(t, r, u)) <==>
            forall x :: x != t ==> !Holds(steps, x, r)
    ensures Enabled(Run(EMPTY_DB, steps), Commit(t)) <==> Uncommitted(steps, t) != []
    ensures Enabled(Run(EMPTY_DB, steps), Abort(t)) <==> Uncommitted(steps, t) != []
    ensures Enabled(Run(EMPTY_DB, steps), CreateRoom(r))
  {
    MatchesRun(steps);
    var d := Run(EMPTY_DB, steps);
    forall x ensures Holds(steps, x, r) <==> Owns(d, x, r) {
      HoldsIff(d, steps, x, r);
    }
    if r in d.rows && d.rows[r].owner.Some? {
      assert Owns(d, d.rows[r].owner.value, r);
    }
  }

  lemma {:induction false} HoldsIff(d: Db, steps: seq<Step>, x: TxId, r: Room)
    requires Matches(d, steps)
    ensures Holds(steps, x, r) <==> Owns(d, x, r)
  {
    var inserted := TxOf(d, x).inserted;
    assert Pairs(inserted) == Uncommitted(steps, x) && TxInv(d, x, r) && RoomInv(d, r);
    InRoomMembers(inserted, r);
    if Owns(d, x, r) {
      var m := InRoom(inserted, r)[0];
      assert m in InRoom(inserted, r) && m in inserted;
      var i :| 0 <= i < |inserted| && inserted[i] == m;
      assert Pairs(inserted)[i] == (r, m.sender);
    }
    if v :| (r, v) in Uncommitted(steps, x) {
      var i :| 0 <= i < |inserted| && Pairs(inserted)[i] == (r, v);
      assert inserted[i] in inserted && inserted[i].room == r;
      assert inserted[i] in InRoom(inserted, r);
    }
  }
}
