/** `ChatWsService`: batch buffers and their flush, socket registries, cleanup and heartbeat, and the
    join and leave frames with the subscription calls they make. Whether a socket is open and under the
    send threshold, and whether a send throws, is up to the environment. */
module ChatWsServices {
  import opened ChatTypes
  import EcmaMap
  import ListenManager
  import Batching
  import Registry
  import Membership
  import opened PostgresServices

  class ChatWsService {
    const postgres: PostgresService

    var userSockets: map<User, set<Socket>>
    var roomSockets: EcmaMap.Map<Room, set<Socket>>
    var userOf: map<Socket, User>
    var isAlive: map<Socket, bool>

    var roomMessageBatchBuffers: EcmaMap.Map<Room, seq<Message>>
    var flushTimerArmed: bool
    var broadcasts: seq<Batching.Broadcast>
    var immediates: seq<Batching.Job>
    var handed: map<Socket, seq<Message>>

    function FanOut(): Batching.FanOut
      reads this
    {
      Batching.FanOut(roomMessageBatchBuffers, flushTimerArmed, broadcasts, immediates, handed)
    }

    function Sockets(): Registry.Registry
      reads this
    {
      Registry.Registry(roomSockets, userSockets, userOf, isAlive)
    }

    function Both(): Membership.State
      reads this, postgres
    {
      Membership.State(postgres.Manager(), Sockets())
    }

    ghost predicate Valid()
      reads this, postgres
    {
      && postgres.Valid()
      && Batching.WellFormed(FanOut())
      && EcmaMap.Gone !in roomMessageBatchBuffers.slots  // buffers are only set and cleared
      && Registry.WellFormed(Sockets())
    }

    constructor (postgres: PostgresService)
      requires postgres.Valid()
      ensures Valid() && this.postgres == postgres
      ensures FanOut() == Batching.Start() && Sockets() == Registry.Start()
    {
      this.postgres := postgres;
      userSockets, roomSockets, userOf, isAlive := map[], EcmaMap.Empty(), map[], map[];
      roomMessageBatchBuffers, flushTimerArmed := EcmaMap.Empty(), false;
      broadcasts, immediates, handed := [], [], map[];
    }

    method EnqueueRoomMessage(roomId: Room, payload: Message)
      requires Valid()
      modifies this`roomMessageBatchBuffers, this`flushTimerArmed
      ensures Valid()
      ensures FanOut() == Batching.DoEnqueue(old(FanOut()), roomId, payload)
    {
      if roomId in roomMessageBatchBuffers.vals {
        var buf := roomMessageBatchBuffers.vals[roomId];
        roomMessageBatchBuffers := roomMessageBatchBuffers.Set(roomId, buf + [payload]);
      } else {
        assert [] + [payload] == [payload];
        roomMessageBatchBuffers := roomMessageBatchBuffers.Set(roomId, [payload]);
      }
      if flushTimerArmed {
        return;
      }
      flushTimerArmed := true;
    }

    /** The flush timer's callback. */
    method OnFlushTimer(open: set<Socket>)
      requires Valid() && flushTimerArmed
      modifies this`roomMessageBatchBuffers, this`flushTimerArmed, this`broadcasts, this`immediates
      ensures Valid()
      ensures FanOut() == Batching.DoFlush(old(FanOut()), roomSockets.vals, open)
    {
      flushTimerArmed := false;
      FlushRoomMessageBatches(open);
    }

    method FlushRoomMessageBatches(open: set<Socket>)
      requires Batching.WellFormed(FanOut()) && EcmaMap.Gone !in roomMessageBatchBuffers.slots && !flushTimerArmed
      modifies this`roomMessageBatchBuffers, this`broadcasts, this`immediates
      ensures roomMessageBatchBuffers == EcmaMap.Empty()
      ensures FanOut() == Batching.DoFlush(old(FanOut()), roomSockets.vals, open)
    {
      var slots, vals := roomMessageBatchBuffers.slots, roomMessageBatchBuffers.vals;
      assert forall i :: 0 <= i < |slots| ==> slots[i] in slots && slots[i] != EcmaMap.Gone;
      assert |slots| > 0 ==> slots[0].key in vals;
      if vals == map[] {
        return;
      }
      BroadcastBatches(slots, vals, open);
      roomMessageBatchBuffers := EcmaMap.Empty();
    }

    /** The loop of the flush. */
    method BroadcastBatches(slots: seq<EcmaMap.Slot<Room>>, vals: map<Room, seq<Message>>, open: set<Socket>)
      requires forall i :: 0 <= i < |slots| ==> slots[i].Key? && slots[i].key in vals
      modifies this`broadcasts, this`immediates
      ensures broadcasts == old(broadcasts) + Batching.Batches(slots, vals)
      ensures immediates == old(immediates) + Batching.Jobs(Batching.Batches(slots, vals), roomSockets.vals, open)
    {
      ghost var sent := [];
      for i := 0 to |slots|
        invariant sent == Batching.Batches(slots[..i], vals)
        invariant broadcasts == old(broadcasts) + sent
        invariant immediates == old(immediates) + Batching.Jobs(sent, roomSockets.vals, open)
      {
        Batching.BatchesNext(slots, i, vals);
        var roomId := slots[i].key;
        var batch := vals[roomId];
        if batch == [] {
          continue;
        }
        Batching.JobsNext(sent, Batching.Broadcast(roomId, batch), roomSockets.vals, open);
        ghost var b := Batching.Broadcast(roomId, batch);
        Assoc(old(broadcasts), sent, [b]);
        Assoc(old(immediates), Batching.Jobs(sent, roomSockets.vals, open), Batching.JobOf(b, roomSockets.vals, open));
        sent := sent + [b];
        BroadcastToRoom(roomId, batch, open);
      }
      assert slots[..|slots|] == slots;
    }

    method BroadcastToRoom(roomId: Room, batch: seq<Message>, open: set<Socket>)
      modifies this`broadcasts, this`immediates
      ensures broadcasts == old(broadcasts) + [Batching.Broadcast(roomId, batch)]
      ensures immediates == old(immediates) + Batching.JobOf(Batching.Broadcast(roomId, batch), roomSockets.vals, open)
    {
      broadcasts := broadcasts + [Batching.Broadcast(roomId, batch)];
      if roomId !in roomSockets.vals || roomSockets.vals[roomId] == {} {
        return;
      }
      var openSockets := roomSockets.vals[roomId] * open;
      if openSockets == {} {
        return;
      }
      immediates := immediates + [Batching.Job(batch, openSockets)];
    }

    /** The oldest `setImmediate` callback. A socket whose send throws is skipped. */
    method RunImmediate(failed: set<Socket>)
      requires Valid() && immediates != []
      modifies this`immediates, this`handed
      ensures Valid()
      ensures FanOut() == Batching.DoImmediate(old(FanOut()), failed)
    {
      var job := immediates[0];
      immediates := immediates[1..];
      var todo := job.sockets;
      Batching.HandNone(handed, job.batch);
      assert (job.sockets - todo) - failed == {};
      while todo != {}
        invariant todo <= job.sockets && immediates == old(immediates)[1..]
        invariant handed == Batching.Hand(old(handed), (job.sockets - todo) - failed, job.batch)
      {
        var socket :| socket in todo;
        ghost var done := (job.sockets - todo) - failed;
        assert (job.sockets - (todo - {socket})) - failed == if socket in failed then done else done + {socket};
        Batching.HandNext(old(handed), done, socket, job.batch);
        if socket !in failed {
          handed := handed[socket := (if socket in handed then handed[socket] else []) + job.batch];
        }
        todo := todo - {socket};
      }
      assert (job.sockets - todo) - failed == job.sockets - failed;
    }

    /** An authenticated connection. */
    method HandleConnection(socket: Socket, userId: User)
      requires Valid() && socket !in userOf
      modifies this`userSockets, this`userOf, this`isAlive
      ensures Valid()
      ensures Sockets() == Registry.Connect(old(Sockets()), socket, userId)
    {
      userOf := userOf[socket := userId];
      isAlive := isAlive[socket := true];
      var socketsForUser := if userId in userSockets then userSockets[userId] else {};
      userSockets := userSockets[userId := socketsForUser + {socket}];
    }

    method OnPong(socket: Socket)
      requires Valid()
      modifies this`isAlive
      ensures Valid() && Sockets() == Registry.Pong(old(Sockets()), socket)
    {
      isAlive := isAlive[socket := true];
    }

    method AddSocketToRoom(roomId: Room, socket: Socket)
      requires Valid()
      modifies this`roomSockets
      ensures Valid()
      ensures Sockets() == Registry.AddToRoom(old(Sockets()), roomId, socket)
    {
      var sockets := if roomId in roomSockets.vals then roomSockets.vals[roomId] else {};
      roomSockets := roomSockets.Set(roomId, sockets + {socket});
    }

    method RemoveSocketFromRoom(roomId: Room, socket: Socket)
      requires Valid()
      modifies this`roomSockets, postgres
      ensures Valid() && postgres.Reconnects() == old(postgres.Reconnects())
      ensures Sockets() == Registry.RemoveFromRoom(old(Sockets()), roomId, socket)
      ensures postgres.Manager() == if Registry.Sockets(old(Sockets()), roomId) == {socket}
                                    then ListenManager.DoUnsubscribe(old(postgres.Manager()), roomId)
                                    else old(postgres.Manager())
    {
      if roomId !in roomSockets.vals {
        return;
      }
      DropFromEntry(roomId, socket);
    }

    /** Removes the socket from one entry of the room map; an emptied entry goes and is unsubscribed. */
    method DropFromEntry(roomId: Room, socket: Socket)
      requires postgres.Valid() && roomSockets.Valid()
      requires roomId in roomSockets.vals && roomSockets.vals[roomId] != {}
      modifies this`roomSockets, postgres
      ensures postgres.Valid() && postgres.Reconnects() == old(postgres.Reconnects())
      ensures roomSockets == Registry.Without(old(roomSockets), roomId, socket)
      ensures postgres.Manager() == if old(roomSockets).vals[roomId] == {socket}
                                    then ListenManager.DoUnsubscribe(old(postgres.Manager()), roomId)
                                    else old(postgres.Manager())
    {
      Registry.EmptiedIff(roomSockets.vals[roomId], socket);
      var sockets := roomSockets.vals[roomId] - {socket};
      if sockets == {} {
        roomSockets := roomSockets.Delete(roomId);
        postgres.UnsubscribeFromRoomChannel(roomId);
      } else {
        roomSockets := roomSockets.Set(roomId, sockets);
      }
    }

    /** Leaves every room and user set and unsubscribes the rooms that become empty. */
    method CleanupSocket(socket: Socket)
      requires Valid()
      modifies this`roomSockets, this`userSockets, postgres
      ensures Valid() && postgres.Reconnects() == old(postgres.Reconnects())
      ensures Sockets() == Registry.Cleanup(old(Sockets()), socket)
      ensures postgres.Manager() ==
              Registry.UnsubscribeAll(old(postgres.Manager()), Registry.CleanupCalls(old(Sockets()), socket))
    {
      ghost var g := Sockets();
      Registry.CleanupWellFormed(g, socket);
      CleanupUser(socket);
      CleanupRooms(socket);
      assert Sockets() == Registry.Cleanup(g, socket);
    }

    /** The second half of a cleanup: every entry of the room map. */
    method CleanupRooms(socket: Socket)
      requires postgres.Valid() && roomSockets.Valid()
      requires forall r :: r in roomSockets.vals ==> roomSockets.vals[r] != {}
      modifies this`roomSockets, postgres
      ensures postgres.Valid() && postgres.Reconnects() == old(postgres.Reconnects())
      ensures roomSockets == Registry.Swept(old(roomSockets), |old(roomSockets).slots|, socket)
      ensures postgres.Manager() == Registry.UnsubscribeAll(old(postgres.Manager()),
                Registry.Emptied(old(roomSockets).slots, old(roomSockets).vals, socket))
    {
      ghost var rooms, pg := roomSockets, postgres.Manager();
      Registry.SweptNone(rooms, socket);
      var entries := |roomSockets.slots|;
      for i := 0 to entries
        invariant postgres.Valid() && postgres.Reconnects() == old(postgres.Reconnects())
        invariant roomSockets == Registry.Swept(rooms, i, socket)
        invariant postgres.Manager() ==
                  Registry.UnsubscribeAll(pg, Registry.Emptied(rooms.slots[..i], rooms.vals, socket))
      {
        CleanupEntry(i, socket, rooms, pg);
      }
      assert rooms.slots[..entries] == rooms.slots;
    }

    /** One turn of the cleanup's loop over the live entries of the room map. */
    method CleanupEntry(i: nat, socket: Socket,
                        ghost rooms: EcmaMap.Map<Room, set<Socket>>, ghost pg: ListenManager.Manager)
      requires rooms.Valid() && i < |rooms.slots| && forall r :: r in rooms.vals ==> rooms.vals[r] != {}
      requires ListenManager.WellFormed(pg)
      requires roomSockets == Registry.Swept(rooms, i, socket)
      requires postgres.Valid()
      requires postgres.Manager() == Registry.UnsubscribeAll(pg, Registry.Emptied(rooms.slots[..i], rooms.vals, socket))
      modifies this`roomSockets, postgres
      ensures postgres.Valid() && postgres.Reconnects() == old(postgres.Reconnects())
      ensures roomSockets == Registry.Swept(rooms, i + 1, socket)
      ensures postgres.Manager() ==
              Registry.UnsubscribeAll(pg, Registry.Emptied(rooms.slots[..i + 1], rooms.vals, socket))
    {
      Registry.SweptAhead(rooms, i, socket);
      Registry.EmptiedNext(rooms.slots, i, rooms.vals, socket);
      var slot := roomSockets.slots[i];
      if slot.Gone? || socket !in roomSockets.vals[slot.key] {
        Registry.SweptSkip(rooms, i, socket);
        return;
      }
      Registry.SweptTake(rooms, i, socket);
      Registry.UnsubscribeNext(pg, Registry.Emptied(rooms.slots[..i], rooms.vals, socket), slot.key);
      DropFromEntry(slot.key, socket);
    }

    /** The first half of a cleanup: the socket's own user set. */
    method CleanupUser(socket: Socket)
      modifies this`userSockets
      ensures userSockets == Registry.CleanupUsers(old(Sockets()), socket)
    {
      if socket in userOf {
        var userId := userOf[socket];
        if userId in userSockets {
          var sockets := userSockets[userId] - {socket};
          userSockets := if sockets == {} then userSockets - {userId} else userSockets[userId := sockets];
        }
      }
    }

    /** One heartbeat over the server's clients; returns those it terminates. */
    method Heartbeat(clients: seq<Socket>) returns (terminated: set<Socket>)
      requires Valid() && Registry.DistinctSockets(clients)
      modifies this`roomSockets, this`userSockets, this`isAlive, postgres
      ensures Valid()
      ensures Sockets() == Registry.Beat(old(Sockets()), clients)
      ensures postgres.Manager() ==
              Registry.UnsubscribeAll(old(postgres.Manager()), Registry.BeatCalls(old(Sockets()), clients))
      ensures terminated == Registry.Terminated(old(Sockets()), clients)
    {
      terminated := {};
      ghost var g0, pg0, calls := Sockets(), postgres.Manager(), [];
      for i := 0 to |clients|
        invariant Valid()
        invariant Sockets() == Registry.Beat(g0, clients[..i])
        invariant calls == Registry.BeatCalls(g0, clients[..i])
        invariant postgres.Manager() == Registry.UnsubscribeAll(pg0, calls)
        invariant terminated == Registry.Terminated(g0, clients[..i])
      {
        ghost var g := Sockets();
        Registry.BeatNext(g0, clients, i);
        Registry.TerminatedNext(g0, clients, i);
        Registry.BeatTurn(g0, clients, i);
        var dead := HeartbeatOne(clients[i]);
        if dead {
          Membership.UnsubscribeAllConcat(pg0, calls, Registry.CleanupCalls(g, clients[i]));
          calls := calls + Registry.CleanupCalls(g, clients[i]);
          terminated := terminated + {clients[i]};
        }
      }
      assert clients[..|clients|] == clients;
    }

    /** The heartbeat at one client: cleaned up when it has not answered since the last beat, else marked. */
    method HeartbeatOne(socket: Socket) returns (dead: bool)
      requires Valid()
      modifies this`roomSockets, this`userSockets, this`isAlive, postgres
      ensures Valid() && dead == Registry.Dead(old(Sockets()), socket)
      ensures Sockets() == if dead then Registry.Cleanup(old(Sockets()), socket)
                           else old(Sockets()).(alive := old(isAlive)[socket := false])
      ensures postgres.Manager() ==
              if dead
              then Registry.UnsubscribeAll(old(postgres.Manager()), Registry.CleanupCalls(old(Sockets()), socket))
              else old(postgres.Manager())
    {
      dead := socket in isAlive && !isAlive[socket];
      if dead {
        CleanupSocket(socket);
      } else {
        isAlive := isAlive[socket := false];
      }
    }

    /** A `join_room` frame up to the await of the membership query in `handleJoinRoom`. */
    method HandleJoinFrame(socket: Socket, roomId: Room)
      requires Valid()
      modifies this`roomSockets
      ensures Valid() && Both() == Membership.JoinArrives(old(Both()), socket, roomId)
    {
      AddSocketToRoom(roomId, socket);
    }

    /** The rest of the join, `member` being the answer: up to the await of its LISTEN. */
    method ResumeJoin(roomId: Room, member: bool)
      requires Valid()
      modifies postgres
      ensures Valid() && Both() == Membership.JoinResumes(old(Both()), roomId, member)
    {
      if !member {
        return;
      }
      postgres.SubscribeToRoomChannel(roomId);
    }

    /** A `leave_room` frame up to the await of the deletion in `handleLeaveRoom`. */
    method HandleLeaveFrame(socket: Socket, roomId: Room)
      requires Valid()
      modifies this`roomSockets, postgres
      ensures Valid() && Both() == Membership.LeaveArrives(old(Both()), socket, roomId)
    {
      RemoveSocketFromRoom(roomId, socket);
    }

    /** The rest of the leave; a deletion that fails ends it. */
    method ResumeLeave(roomId: Room, deleted: bool)
      requires Valid()
      modifies postgres
      ensures Valid() && Both() == Membership.LeaveResumes(old(Both()), roomId, deleted)
    {
      if !deleted {
        return;
      }
      postgres.UnsubscribeFromRoomChannel(roomId);
    }

    method OnModuleDestroy()
      requires Valid()
      modifies this`flushTimerArmed
      ensures Valid() && FanOut() == old(FanOut()).(timerArmed := false)
    {
      if flushTimerArmed {
        flushTimerArmed := false;
      }
    }
  }
}
