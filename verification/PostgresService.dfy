/** `PostgresService`, the stateful side: subscription counts, the listen client's command queue, the
    re-listening loop and the reconnect timer. An `async` call is split at its `await`: the part before
    it is the method, the part after it is `OnAnswered` or `OnRejected`. */
module PostgresServices {
  import opened ChatTypes
  import EcmaMap
  import ListenManager
  import Backoff

  class PostgresService {
    var roomSubscriptionCounts: EcmaMap.Map<Room, nat>
    var destroyed: bool
    var reconnectBackoffMs: nat
    var reconnectTimer: Option<nat>

    // The listen client and its server session.
    var commandQueue: seq<ListenManager.Command>
    var listening: set<Room>
    var sessionLive: bool
    var relistenLoop: ListenManager.Loop

    // The event loop's timers.
    var pendingTimers: set<nat>
    var nextHandle: nat
    var delaysSinceSuccess: seq<nat>

    function Manager(): ListenManager.Manager
      reads this
    {
      ListenManager.Manager(roomSubscriptionCounts, commandQueue, listening, sessionLive, relistenLoop)
    }

    function Reconnects(): Backoff.State
      reads this
    {
      Backoff.State(destroyed, reconnectTimer, reconnectBackoffMs, pendingTimers, nextHandle, delaysSinceSuccess)
    }

    ghost predicate Valid()
      reads this
    {
      ListenManager.WellFormed(Manager())
    }

    constructor ()
      ensures Valid() && Manager() == ListenManager.Start() && Reconnects() == Backoff.START
    {
      roomSubscriptionCounts := EcmaMap.Empty();
      destroyed := false;
      reconnectBackoffMs := Backoff.INITIAL_RECONNECT_MS;
      reconnectTimer := None;
      commandQueue, listening, sessionLive, relistenLoop := [], {}, true, ListenManager.Idle;
      pendingTimers, nextHandle, delaysSinceSuccess := {}, 0, [];
    }

    method SubscribeToRoomChannel(roomId: Room)
      requires Valid()
      modifies this`roomSubscriptionCounts, this`commandQueue
      ensures Valid()
      ensures Manager() == ListenManager.DoSubscribe(old(Manager()), roomId)
    {
      var roomCount := if roomId in roomSubscriptionCounts.vals then roomSubscriptionCounts.vals[roomId] else 0;
      var next := roomCount + 1;
      roomSubscriptionCounts := roomSubscriptionCounts.Set(roomId, next);
      if roomCount == 0 {
        commandQueue := commandQueue + [ListenManager.Listen(roomId)];
      }
    }

    method UnsubscribeFromRoomChannel(roomId: Room)
      requires Valid()
      modifies this`roomSubscriptionCounts, this`commandQueue
      ensures Valid()
      ensures Manager() == ListenManager.DoUnsubscribe(old(Manager()), roomId)
    {
      var roomCount := if roomId in roomSubscriptionCounts.vals then roomSubscriptionCounts.vals[roomId] else 0;
      if roomCount == 0 {
        return;
      }
      var newRoomCount := roomCount - 1;
      if newRoomCount > 0 {
        roomSubscriptionCounts := roomSubscriptionCounts.Set(roomId, newRoomCount);
        return;
      }
      roomSubscriptionCounts := roomSubscriptionCounts.Delete(roomId);
      commandQueue := commandQueue + [ListenManager.Unlisten(roomId)];
    }

    /** The server obeys the oldest command and its caller resumes. */
    method OnAnswered()
      requires Valid() && commandQueue != [] && sessionLive
      modifies this`commandQueue, this`listening, this`relistenLoop
      ensures Valid()
      ensures Manager() == ListenManager.Apply(old(Manager()), ListenManager.Serve(true))
    {
      var command := commandQueue[0];
      commandQueue := commandQueue[1..];
      listening := if command.Unlisten? then listening - {command.room} else listening + {command.room};
      if command.Relisten? && relistenLoop.Awaiting? {
        relistenLoop := ListenManager.Ready(relistenLoop.pos);
      }
    }

    /** The oldest command fails and its caller's `catch` runs. */
    method OnRejected()
      requires Valid() && commandQueue != []
      modifies this`commandQueue, this`roomSubscriptionCounts, this`relistenLoop
      ensures Valid()
      ensures Manager() == ListenManager.Apply(old(Manager()), ListenManager.Serve(false))
    {
      var command := commandQueue[0];
      commandQueue := commandQueue[1..];
      match command
      case Listen(roomId) => roomSubscriptionCounts := roomSubscriptionCounts.Delete(roomId);
      case Unlisten(roomId) => roomSubscriptionCounts := roomSubscriptionCounts.Set(roomId, 1);
      case Relisten(_) => relistenLoop := ListenManager.Idle;
    }

    /** One turn of the loop in `ensureListenChannels`: the live map's iterator gives the next key, whose
        LISTEN is then awaited. */
    method EnsureListenChannelsTurn()
      requires Valid() && relistenLoop.Ready?
      modifies this`commandQueue, this`relistenLoop
      ensures Valid()
      ensures Manager() == ListenManager.Apply(old(Manager()), ListenManager.Iterate)
    {
      var p := EcmaMap.Seek(roomSubscriptionCounts.slots, relistenLoop.pos);
      if p == |roomSubscriptionCounts.slots| {
        relistenLoop := ListenManager.Idle;
      } else {
        commandQueue := commandQueue + [ListenManager.Relisten(roomSubscriptionCounts.slots[p].key)];
        relistenLoop := ListenManager.Awaiting(p + 1);
      }
    }

    method ScheduleReconnect()
      modifies this`reconnectTimer, this`reconnectBackoffMs, this`pendingTimers, this`nextHandle
      modifies this`delaysSinceSuccess
      ensures Reconnects() == Backoff.Schedule(old(Reconnects()))
    {
      if destroyed {
        return;
      }
      if reconnectTimer.Some? {
        return;
      }
      var delay := reconnectBackoffMs;
      reconnectBackoffMs := if reconnectBackoffMs * 2 < Backoff.MAX_RECONNECT_MS then reconnectBackoffMs * 2
                            else Backoff.MAX_RECONNECT_MS;
      reconnectTimer := Some(nextHandle);
      pendingTimers := pendingTimers + {nextHandle};
      nextHandle := nextHandle + 1;
      delaysSinceSuccess := delaysSinceSuccess + [delay];
    }

    /** The timer's callback up to the first await of `doReconnect`, the end of the old client. This is where
        `destroyed` is looked at, and nowhere later. */
    method OnReconnectTimer(handle: nat) returns (attempts: bool)
      requires Valid() && handle in pendingTimers
      modifies this`reconnectTimer, this`pendingTimers
      ensures Valid() && Manager() == old(Manager())
      ensures Reconnects() == Backoff.Apply(old(Reconnects()), Backoff.TimerFires(handle))
      ensures attempts <==> !destroyed
    {
      reconnectTimer := None;
      pendingTimers := pendingTimers - {handle};
      attempts := !destroyed;
    }

    /** The old client has ended, its unanswered commands rejected one by one, and a new one takes its place,
        also if the service was destroyed in between; commands queue on the new client until it is connected. */
    method OnOldClientEnded()
      requires Valid() && commandQueue == []
      modifies this`listening, this`sessionLive, this`relistenLoop
      ensures Valid() && Reconnects() == old(Reconnects())
      ensures Manager() == ListenManager.Apply(old(Manager()), ListenManager.Reconnect)
    {
      listening, sessionLive, relistenLoop := {}, true, ListenManager.Ready(0);
    }

    method OnReconnected()
      modifies this`reconnectBackoffMs, this`delaysSinceSuccess
      ensures Reconnects() == Backoff.Apply(old(Reconnects()), Backoff.Reconnected)
    {
      reconnectBackoffMs := Backoff.INITIAL_RECONNECT_MS;
      delaysSinceSuccess := [];
    }

    method OnModuleDestroy()
      modifies this`destroyed, this`reconnectTimer, this`pendingTimers
      ensures Reconnects() == Backoff.Apply(old(Reconnects()), Backoff.Destroy)
    {
      destroyed := true;
      if reconnectTimer.Some? {
        pendingTimers := pendingTimers - {reconnectTimer.value};
        reconnectTimer := None;
      }
    }
  }
}
