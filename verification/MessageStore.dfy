/** The trigger functions of `001_init.sql`, as the updates they make in place. */
module MessageStores {
  import opened ChatTypes
  import opened Sequencer

  class MessageStore {
    var roomSequences: map<Room, Row>
    var transactions: map<TxId, Tx>
    var messages: seq<Message>
    var notifications: seq<Message>

    function Contents(): Db
      reads this
    {
      Db(roomSequences, transactions, messages, notifications)
    }

    constructor ()
      ensures Contents() == EMPTY_DB
    {
      roomSequences, transactions, messages, notifications := map[], map[], [], [];
    }

    /** `init_room_sequence`: a second row for the same room is not inserted. */
    method InitRoomSequence(roomId: Room)
      modifies this`roomSequences
      ensures Contents() == Apply(old(Contents()), CreateRoom(roomId))
    {
      if roomId !in roomSequences {
        roomSequences := roomSequences[roomId := Row(1, 1, None)];
      }
    }

    /** An insert into `messages` by transaction `tx`, which does not have to wait for the room's row:
        `assign_room_sequence` before it, `notify_new_message` after it. Returns the assigned number, or
        nothing when the room has no sequence row and the whole transaction fails. */
    method InsertMessage(tx: TxId, roomId: Room, userId: User) returns (seqNo: Option<nat>)
      requires Inv(Contents()) && Enabled(Contents(), Insert(tx, roomId, userId))
      modifies this`roomSequences, this`transactions
      ensures Inv(Contents())
      ensures Contents() == Apply(old(Contents()), Insert(tx, roomId, userId))
      ensures seqNo == None <==> roomId !in roomSequences
      ensures seqNo.Some? ==>
                var mine := InRoom(TxOf(Contents(), tx).inserted, roomId);
                mine != [] && mine[|mine| - 1] == Message(roomId, seqNo.value, userId)
    {
      Sequencer.StepInv(Contents(), Insert(tx, roomId, userId));
      if roomId !in roomSequences {
        Rollback(tx);
        return None;
      }
      var number := AssignRoomSequence(tx, roomId);
      var row := Message(roomId, number, userId);
      var t := if tx in transactions then transactions[tx] else NO_TX;
      InRoomConcat(t.inserted, [row], roomId);
      assert InRoom([row], roomId) == [row];
      transactions := transactions[tx := Tx(t.inserted + [row], t.notes + [row])];
      seqNo := Some(number);
    }

    /** `UPDATE room_sequences SET next_seq = next_seq + 1 ... RETURNING next_seq - 1`. */
    method AssignRoomSequence(tx: TxId, roomId: Room) returns (seqNo: nat)
      requires roomId in roomSequences
      modifies this`roomSequences
      ensures seqNo == old(roomSequences)[roomId].current
      ensures roomSequences == old(roomSequences)[roomId :=
                Row(old(roomSequences)[roomId].committed, seqNo + 1, Some(tx))]
    {
      var row := roomSequences[roomId];
      roomSequences := roomSequences[roomId := Row(row.committed, row.current + 1, Some(tx))];
      seqNo := roomSequences[roomId].current - 1;
    }

    method Commit(tx: TxId)
      requires tx in transactions
      modifies this
      ensures Contents() == Apply(old(Contents()), Sequencer.Commit(tx))
    {
      messages := messages + transactions[tx].inserted;
      notifications := notifications + transactions[tx].notes;
      roomSequences := map r | r in roomSequences ::
        if roomSequences[r].owner == Some(tx) then Row(roomSequences[r].current, roomSequences[r].current, None)
        else roomSequences[r];
      transactions := transactions - {tx};
    }

    method Rollback(tx: TxId)
      modifies this`roomSequences, this`transactions
      ensures Contents() == AbortTx(old(Contents()), tx)
      ensures roomSequences.Keys == old(roomSequences).Keys
    {
      roomSequences := map r | r in roomSequences ::
        if roomSequences[r].owner == Some(tx) then Row(roomSequences[r].committed, roomSequences[r].committed, None)
        else roomSequences[r];
      transactions := transactions - {tx};
    }
  }
}
