/** Which sockets are registered for which rooms and users on one node, and the unsubscribe calls that
    removing a socket causes. */
module Registry {
  import opened ChatTypes
  import EcmaMap
  import ListenManager

  datatype Registry = Registry(
    roomSockets: EcmaMap.Map<Room, set<Socket>>,
    userSockets: map<User, set<Socket>>,
    userOf: map<Socket, User>,      // socket.userId
    alive: map<Socket, bool>)       // socket.isAlive, absent while undefined

  function Start(): (g: Registry)
    ensures WellFormed(g)
  {
    Registry(EcmaMap.Empty(), map[], map[], map[])
  }

  /** No stored set is empty, and a socket is listed under its own user only. */
  ghost predicate WellFormed(g: Registry) {
    && g.roomSockets.Valid()
    && (forall r :: r in g.roomSockets.vals ==> g.roomSockets.vals[r] != {})
    && (forall u :: u in g.userSockets ==> g.userSockets[u] != {})
    && (forall u, s :: u in g.userSockets && s in g.userSockets[u] ==> s in g.userOf && g.userOf[s] == u)
  }

  function Sockets(g: Registry, r: Room): set<Socket> {
    if r in g.roomSockets.vals then g.roomSockets.vals[r] else {}
  }

  function UserSockets(g: Registry, u: User): set<Socket> {
    if u in g.userSockets then g.userSockets[u] else {}
  }

  function Connect(g: Registry, s: Socket, u: User): (g': Registry)
    requires WellFormed(g) && s !in g.userOf
    ensures WellFormed(g')
  {
    g.(userSockets := g.userSockets[u := UserSockets(g, u) + {s}],
       userOf := g.userOf[s := u], alive := g.alive[s := true])
  }

  /** A connection is listed under its user and answers as alive; no other registration changes. */
  lemma ConnectExact(g: Registry, s: Socket, u: User)
    requires WellFormed(g) && s !in g.userOf
    ensures var g' := Connect(g, s, u);
            && UserSockets(g', u) == UserSockets(g, u) + {s}
            && (forall v :: v != u ==> UserSockets(g', v) == UserSockets(g, v))
            && (forall r :: Sockets(g', r) == Sockets(g, r))
            && !Dead(g', s) && (forall c :: c != s ==> Dead(g', c) == Dead(g, c))
  {
  }

  function AddToRoom(g: Registry, r: Room, s: Socket): (g': Registry)
    requires WellFormed(g)
    ensures WellFormed(g')
  {
    g.(roomSockets := g.roomSockets.Set(r, Sockets(g, r) + {s}))
  }

  /** The room's set without the socket; an emptied set is dropped. */
  function Without(rooms: EcmaMap.Map<Room, set<Socket>>, r: Room, s: Socket): (rooms': EcmaMap.Map<Room, set<Socket>>)
    requires rooms.Valid()
    ensures rooms'.Valid()
  {
    if r !in rooms.vals then rooms
    else if rooms.vals[r] - {s} == {} then rooms.Delete(r)
    else rooms.Set(r, rooms.vals[r] - {s})
  }

  function RemoveFromRoom(g: Registry, r: Room, s: Socket): (g': Registry)
    requires WellFormed(g)
    ensures WellFormed(g')
  {
    g.(roomSockets := Without(g.roomSockets, r, s))
  }

  /** The rooms for which removing the socket leaves nobody, in the map's order. */
  function Emptied(slots: seq<EcmaMap.Slot<Room>>, vals: map<Room, set<Socket>>, s: Socket): seq<Room> {
    if slots == [] then []
    else
      var front, last := slots[..|slots| - 1], slots[|slots| - 1];
      Emptied(front, vals, s) +
      if last.Key? && last.key in vals && vals[last.key] == {s} then [last.key] else []
  }

  function SweptSlots(rooms: EcmaMap.Map<Room, set<Socket>>, done: nat, s: Socket): (slots: seq<EcmaMap.Slot<Room>>)
    ensures |slots| == |rooms.slots|
  {
    seq(|rooms.slots|, i requires 0 <= i < |rooms.slots| =>
      var slot := rooms.slots[i];
      if i < done && slot.Key? && slot.key in rooms.vals && rooms.vals[slot.key] == {s} then EcmaMap.Gone else slot)
  }

  function SweptVals(rooms: EcmaMap.Map<Room, set<Socket>>, done: nat, s: Socket): map<Room, set<Socket>>
    requires done <= |rooms.slots|
  {
    map r | r in rooms.vals && !(EcmaMap.Key(r) in rooms.slots[..done] && rooms.vals[r] == {s}) ::
      if EcmaMap.Key(r) in rooms.slots[..done] then rooms.vals[r] - {s} else rooms.vals[r]
  }

  /** The room map after the entries under `done` have lost the socket. */
  function Swept(rooms: EcmaMap.Map<Room, set<Socket>>, done: nat, s: Socket): EcmaMap.Map<Room, set<Socket>>
    requires done <= |rooms.slots|
  {
    EcmaMap.Map(SweptSlots(rooms, done, s), SweptVals(rooms, done, s))
  }

  function CleanupUsers(g: Registry, s: Socket): map<User, set<Socket>> {
    if s !in g.userOf then g.userSockets
    else map u | u in g.userSockets && !(u == g.userOf[s] && g.userSockets[u] - {s} == {}) ::
           if u == g.userOf[s] then g.userSockets[u] - {s} else g.userSockets[u]
  }

  function Cleanup(g: Registry, s: Socket): Registry {
    g.(userSockets := CleanupUsers(g, s), roomSockets := Swept(g.roomSockets, |g.roomSockets.slots|, s))
  }

  /** The rooms a cleanup unsubscribes. */
  function CleanupCalls(g: Registry, s: Socket): seq<Room> {
    Emptied(g.roomSockets.slots, g.roomSockets.vals, s)
  }

  function UnsubscribeAll(m: ListenManager.Manager, rooms: seq<Room>): (m': ListenManager.Manager)
    requires ListenManager.WellFormed(m)
    ensures ListenManager.WellFormed(m')
    decreases |rooms|
  {
    if rooms == [] then m
    else ListenManager.DoUnsubscribe(UnsubscribeAll(m, rooms[..|rooms| - 1]), rooms[|rooms| - 1])
  }

  lemma {:induction false} EmptiedIff(sockets: set<Socket>, s: Socket)
    requires sockets != {}
    ensures sockets - {s} == {} <==> sockets == {s}
  {
    if sockets != {s} {
      var x :| x in sockets && x != s;
      assert x in sockets - {s};
    }
  }

  // --- The sweep -----------------------------------------------------------------------------------

  lemma {:induction false} SweptNone(rooms: EcmaMap.Map<Room, set<Socket>>, s: Socket)
    requires rooms.Valid()
    ensures Swept(rooms, 0, s) == rooms
  {
    assert Swept(rooms, 0, s).slots == rooms.slots;
    assert Swept(rooms, 0, s).vals == rooms.vals;
  }

  lemma {:induction false} SweptValid(rooms: EcmaMap.Map<Room, set<Socket>>, done: nat, s: Socket)
    requires rooms.Valid() && done <= |rooms.slots|
    ensures Swept(rooms, done, s).Valid()
  {
    var m := Swept(rooms, done, s);
    forall r ensures r in m.vals <==> EcmaMap.Key(r) in m.slots {
      if r in m.vals {
        var i :| 0 <= i < |rooms.slots| && rooms.slots[i] == EcmaMap.Key(r);
        assert i < done ==> rooms.slots[i] in rooms.slots[..done] by {
          if i < done { assert rooms.slots[..done][i] == rooms.slots[i]; }
        }
        assert m.slots[i] == EcmaMap.Key(r);
      }
      if EcmaMap.Key(r) in m.slots {
        var i :| 0 <= i < |m.slots| && m.slots[i] == EcmaMap.Key(r);
        assert rooms.slots[i] == EcmaMap.Key(r);
      }
    }
  }

  /** An entry not yet swept is as it was. */
  lemma {:induction false} SweptAhead(rooms: EcmaMap.Map<Room, set<Socket>>, done: nat, s: Socket)
    requires rooms.Valid() && done < |rooms.slots|
    ensures Swept(rooms, done, s).Valid()
    ensures |Swept(rooms, done, s).slots| == |rooms.slots|
    ensures Swept(rooms, done, s).slots[done] == rooms.slots[done]
    ensures rooms.slots[done].Key? ==>
              var r := rooms.slots[done].key;
              && r in rooms.vals && EcmaMap.Key(r) !in rooms.slots[..done]
              && r in Swept(rooms, done, s).vals && Swept(rooms, done, s).vals[r] == rooms.vals[r]
  {
    SweptValid(rooms, done, s);
    var slot := rooms.slots[done];
    if slot.Key? {
      assert slot in rooms.slots;
      assert slot !in rooms.slots[..done];
    }
  }

  lemma {:induction false} SweptSkip(rooms: EcmaMap.Map<Room, set<Socket>>, done: nat, s: Socket)
    requires rooms.Valid() && done < |rooms.slots|
    requires rooms.slots[done].Key? ==> rooms.slots[done].key in rooms.vals && s !in rooms.vals[rooms.slots[done].key]
    ensures Swept(rooms, done + 1, s) == Swept(rooms, done, s)
  {
    var slot := rooms.slots[done];
    assert rooms.slots[..done + 1] == rooms.slots[..done] + [slot];
    forall r | r in rooms.vals && EcmaMap.Key(r) == slot ensures rooms.vals[r] - {s} == rooms.vals[r] != {s} {}
    SweptSkipSlots(rooms, done, s);
    assert SweptVals(rooms, done + 1, s) == SweptVals(rooms, done, s);
  }

  lemma SweptSkipSlots(rooms: EcmaMap.Map<Room, set<Socket>>, done: nat, s: Socket)
    requires done < |rooms.slots|
    requires rooms.slots[done].Key? ==> rooms.slots[done].key in rooms.vals && s !in rooms.vals[rooms.slots[done].key]
    ensures SweptSlots(rooms, done + 1, s) == SweptSlots(rooms, done, s)
  {
  }

  lemma {:induction false} TakenNext(rooms: EcmaMap.Map<Room, set<Socket>>, done: nat, r: Room)
    requires done < |rooms.slots| && rooms.slots[done].Key?
    ensures EcmaMap.Key(r) in rooms.slots[..done + 1] <==>
            EcmaMap.Key(r) in rooms.slots[..done] || r == rooms.slots[done].key
  {
    assert rooms.slots[..done + 1] == rooms.slots[..done] + [rooms.slots[done]];
  }

  /** One room's sockets after the sweep has come to `done`; none if it has no entry left. */
  function SweptSockets(rooms: EcmaMap.Map<Room, set<Socket>>, done: nat, s: Socket, r: Room): Option<set<Socket>>
    requires done <= |rooms.slots|
  {
    if r !in rooms.vals then None
    else if EcmaMap.Key(r) !in rooms.slots[..done] then Some(rooms.vals[r])
    else if rooms.vals[r] == {s} then None else Some(rooms.vals[r] - {s})
  }

  lemma SweptAt(rooms: EcmaMap.Map<Room, set<Socket>>, done: nat, s: Socket, r: Room)
    requires done <= |rooms.slots|
    ensures var vals := SweptVals(rooms, done, s);
            SweptSockets(rooms, done, s, r) == At(vals, r)
  {
  }

  function At(vals: map<Room, set<Socket>>, r: Room): Option<set<Socket>> {
    if r in vals then Some(vals[r]) else None
  }

  /** Two maps that differ in one entry. */
  lemma {:induction false} Differ(vals: map<Room, set<Socket>>, vals': map<Room, set<Socket>>, key: Room)
    requires forall r :: r != key ==> At(vals', r) == At(vals, r)
    ensures key !in vals' ==> vals' == vals - {key}
    ensures key in vals' ==> vals' == vals[key := vals'[key]]
  {
    assert forall r :: r != key ==> (r in vals' <==> r in vals) && (r in vals ==> vals'[r] == vals[r]) by {
      forall r | r != key ensures (r in vals' <==> r in vals) && (r in vals ==> vals'[r] == vals[r]) {
        assert At(vals', r) == At(vals, r);
      }
    }
  }

  lemma {:induction false} SweptNextAt(rooms: EcmaMap.Map<Room, set<Socket>>, done: nat, s: Socket, r: Room)
    requires done < |rooms.slots| && rooms.slots[done].Key? && rooms.slots[done].key != r
    ensures At(SweptVals(rooms, done + 1, s), r) == At(SweptVals(rooms, done, s), r)
  {
    TakenNext(rooms, done, r);
    SweptAt(rooms, done, s, r);
    SweptAt(rooms, done + 1, s, r);
  }

  lemma {:induction false} SweptTakeVals(rooms: EcmaMap.Map<Room, set<Socket>>, done: nat, s: Socket)
    requires rooms.Valid() && done < |rooms.slots| && rooms.slots[done].Key?
    requires rooms.slots[done].key in rooms.vals && EcmaMap.Key(rooms.slots[done].key) !in rooms.slots[..done]
    ensures var r, vals := rooms.slots[done].key, SweptVals(rooms, done, s);
            SweptVals(rooms, done + 1, s) ==
            if rooms.vals[r] == {s} then vals - {r} else vals[r := rooms.vals[r] - {s}]
  {
    var key, vals, vals' := rooms.slots[done].key, SweptVals(rooms, done, s), SweptVals(rooms, done + 1, s);
    forall r | r != key ensures At(vals', r) == At(vals, r) {
      SweptNextAt(rooms, done, s, r);
    }
    Differ(vals, vals', key);
    TakenNext(rooms, done, key);
    SweptAt(rooms, done + 1, s, key);
  }

  lemma {:induction false} SweptTakeSlots(rooms: EcmaMap.Map<Room, set<Socket>>, done: nat, s: Socket)
    requires rooms.Valid() && done < |rooms.slots| && rooms.slots[done].Key?
    requires rooms.slots[done].key in rooms.vals
    ensures var r, slots := rooms.slots[done].key, SweptSlots(rooms, done, s);
            SweptSlots(rooms, done + 1, s) == if rooms.vals[r] == {s} then EcmaMap.Erase(slots, r) else slots
  {
    var key, slots, slots' := rooms.slots[done].key, SweptSlots(rooms, done, s), SweptSlots(rooms, done + 1, s);
    forall i | 0 <= i < |rooms.slots|
      ensures slots'[i] == if rooms.vals[key] == {s} then EcmaMap.Erase(slots, key)[i] else slots[i]
    {
      assert i != done && rooms.slots[i].Key? ==> rooms.slots[i] != rooms.slots[done];
    }
  }

  lemma {:induction false} SweptTake(rooms: EcmaMap.Map<Room, set<Socket>>, done: nat, s: Socket)
    requires rooms.Valid() && done < |rooms.slots| && rooms.slots[done].Key?
    requires rooms.slots[done].key in rooms.vals && s in rooms.vals[rooms.slots[done].key]
    ensures Swept(rooms, done, s).Valid()
    ensures Swept(rooms, done + 1, s) == Without(Swept(rooms, done, s), rooms.slots[done].key, s)
  {
    SweptAhead(rooms, done, s);
    EmptiedIff(rooms.vals[rooms.slots[done].key], s);
    SweptTakeVals(rooms, done, s);
    SweptTakeSlots(rooms, done, s);
  }

  lemma {:induction false} CleanupWellFormed(g: Registry, s: Socket)
    requires WellFormed(g)
    ensures WellFormed(Cleanup(g, s))
  {
    SweptValid(g.roomSockets, |g.roomSockets.slots|, s);
    var rooms, g' := g.roomSockets, Cleanup(g, s);
    assert rooms.slots[..|rooms.slots|] == rooms.slots;
    forall r | r in g'.roomSockets.vals ensures g'.roomSockets.vals[r] != {} {
      assert EcmaMap.Key(r) in rooms.slots;
      EmptiedIff(rooms.vals[r], s);
    }
  }

  /** Cleanup exactness: the socket leaves every room and user set, every other registration stays, and
      exactly the sets that became empty are dropped (`CleanupWellFormed`). */
  lemma {:induction false} CleanupExact(g: Registry, s: Socket)
    requires WellFormed(g)
    ensures forall r :: Sockets(Cleanup(g, s), r) == Sockets(g, r) - {s}
    ensures forall u :: UserSockets(Cleanup(g, s), u) == UserSockets(g, u) - {s}
    ensures forall r :: r in Cleanup(g, s).roomSockets.vals <==> Sockets(g, r) - {s} != {}
    ensures forall u :: u in Cleanup(g, s).userSockets <==> UserSockets(g, u) - {s} != {}
  {
    var rooms := g.roomSockets;
    assert rooms.slots[..|rooms.slots|] == rooms.slots;
    forall r
      ensures Sockets(Cleanup(g, s), r) == Sockets(g, r) - {s}
      ensures r in Cleanup(g, s).roomSockets.vals <==> Sockets(g, r) - {s} != {}
    {
      if r in rooms.vals {
        assert EcmaMap.Key(r) in rooms.slots;
        assert rooms.vals[r] == {s} <==> rooms.vals[r] - {s} == {};
      }
    }
    forall u
      ensures UserSockets(Cleanup(g, s), u) == UserSockets(g, u) - {s}
      ensures u in Cleanup(g, s).userSockets <==> UserSockets(g, u) - {s} != {}
    {
      if u in g.userSockets && !(s in g.userOf && u == g.userOf[s]) {
        assert s !in g.userSockets[u];
        assert g.userSockets[u] - {s} == g.userSockets[u];
      }
    }
  }

  lemma {:induction false} EmptiedNext(slots: seq<EcmaMap.Slot<Room>>, i: nat, vals: map<Room, set<Socket>>, s: Socket)
    requires i < |slots|
    ensures Emptied(slots[..i + 1], vals, s) ==
            if slots[i].Key? && slots[i].key in vals && vals[slots[i].key] == {s}
            then Emptied(slots[..i], vals, s) + [slots[i].key] else Emptied(slots[..i], vals, s)
  {
    assert slots[..i + 1][..i] == slots[..i];
  }

  lemma {:induction false} UnsubscribeNext(m: ListenManager.Manager, rooms: seq<Room>, r: Room)
    requires ListenManager.WellFormed(m)
    ensures UnsubscribeAll(m, rooms + [r]) == ListenManager.DoUnsubscribe(UnsubscribeAll(m, rooms), r)
  {
    assert (rooms + [r])[..|rooms|] == rooms;
  }

  lemma {:induction false} EmptiedCount(slots: seq<EcmaMap.Slot<Room>>, vals: map<Room, set<Socket>>, s: Socket,
                                        r: Room)
    requires EcmaMap.DistinctKeys(slots)
    ensures multiset(Emptied(slots, vals, s))[r] ==
            if EcmaMap.Key(r) in slots && r in vals && vals[r] == {s} then 1 else 0
  {
    if slots != [] {
      var front, last := slots[..|slots| - 1], slots[|slots| - 1];
      EmptiedCount(front, vals, s, r);
      assert EcmaMap.Key(r) in slots <==> EcmaMap.Key(r) in front || last == EcmaMap.Key(r);
      assert last == EcmaMap.Key(r) ==> EcmaMap.Key(r) !in front;
    }
  }

  /** A cleanup unsubscribes each room it empties exactly once, and no other room. */
  lemma {:induction false} CleanupUnsubscribesOnce(g: Registry, s: Socket, r: Room)
    requires WellFormed(g)
    ensures multiset(CleanupCalls(g, s))[r] == if Sockets(g, r) != {} && Sockets(Cleanup(g, s), r) == {} then 1 else 0
  {
    EmptiedCount(g.roomSockets.slots, g.roomSockets.vals, s, r);
    CleanupExact(g, s);
    assert Sockets(g, r) != {} && Sockets(g, r) - {s} == {} <==> Sockets(g, r) == {s};
    assert r in g.roomSockets.vals ==> EcmaMap.Key(r) in g.roomSockets.slots;
  }

  /** A cleanup unsubscribes in the order in which the map holds the rooms. */
  lemma {:induction false} CleanupInOrder(g: Registry, s: Socket)
    ensures EcmaMap.InOrder(g.roomSockets.slots, CleanupCalls(g, s))
  {
    EmptiedInOrder(g.roomSockets.slots, g.roomSockets.vals, s);
  }

  lemma {:induction false} EmptiedInOrder(slots: seq<EcmaMap.Slot<Room>>, vals: map<Room, set<Socket>>, s: Socket)
    ensures EcmaMap.InOrder(slots, Emptied(slots, vals, s))
  {
    if slots != [] {
      var front, last := slots[..|slots| - 1], slots[|slots| - 1];
      EmptiedInOrder(front, vals, s);
      var more := if last.Key? && last.key in vals && vals[last.key] == {s} then [last.key] else [];
      EcmaMap.InOrderSnoc(slots, Emptied(front, vals, s), more);
    }
  }

  lemma {:induction false} NothingEmptied(slots: seq<EcmaMap.Slot<Room>>, vals: map<Room, set<Socket>>, s: Socket)
    requires forall r :: r in vals ==> s !in vals[r]
    ensures Emptied(slots, vals, s) == []
  {
    if slots != [] {
      NothingEmptied(slots[..|slots| - 1], vals, s);
    }
  }

  lemma {:induction false} SweptIdle(rooms: EcmaMap.Map<Room, set<Socket>>, done: nat, s: Socket)
    requires done <= |rooms.slots|
    requires forall r :: r in rooms.vals ==> s !in rooms.vals[r]
    ensures Swept(rooms, done, s) == rooms
  {
    var m := Swept(rooms, done, s);
    assert forall r :: r in rooms.vals ==> rooms.vals[r] != {s} && rooms.vals[r] - {s} == rooms.vals[r];
    assert m.vals == rooms.vals;
    assert m.slots == rooms.slots;
  }

  lemma {:induction false} UsersIdle(g: Registry, s: Socket)
    requires forall u :: u in g.userSockets ==> s !in g.userSockets[u] && g.userSockets[u] != {}
    ensures CleanupUsers(g, s) == g.userSockets
  {
    assert forall u :: u in g.userSockets ==> g.userSockets[u] - {s} == g.userSockets[u];
  }

  /** A second cleanup of the same socket (heartbeat then close, error then close) changes nothing and
      unsubscribes nothing. */
  lemma {:induction false} CleanupIdempotent(g: Registry, s: Socket)
    requires WellFormed(g)
    ensures Cleanup(Cleanup(g, s), s) == Cleanup(g, s)
    ensures CleanupCalls(Cleanup(g, s), s) == []
  {
    var g1 := Cleanup(g, s);
    CleanupWellFormed(g, s);
    CleanupExact(g, s);
    forall r | r in g1.roomSockets.vals ensures s !in g1.roomSockets.vals[r] {
      assert Sockets(g1, r) == Sockets(g, r) - {s};
    }
    forall u | u in g1.userSockets ensures s !in g1.userSockets[u] {
      assert UserSockets(g1, u) == UserSockets(g, u) - {s};
    }
    NothingEmptied(g1.roomSockets.slots, g1.roomSockets.vals, s);
    SweptIdle(g1.roomSockets, |g1.roomSockets.slots|, s);
    UsersIdle(g1, s);
  }

  // --- The heartbeat -------------------------------------------------------------------------------

  predicate Dead(g: Registry, s: Socket) {
    s in g.alive && !g.alive[s]
  }

  /** The registry after the heartbeat has visited the clients: the unresponsive ones are cleaned up,
      the others must answer before the next beat. */
  function Beat(g: Registry, clients: seq<Socket>): Registry {
    if clients == [] then g
    else
      var g1, c := Beat(g, clients[..|clients| - 1]), clients[|clients| - 1];
      if Dead(g1, c) then Cleanup(g1, c) else g1.(alive := g1.alive[c := false])
  }

  function BeatCalls(g: Registry, clients: seq<Socket>): seq<Room> {
    if clients == [] then []
    else
      var front, c := clients[..|clients| - 1], clients[|clients| - 1];
      var g1 := Beat(g, front);
      BeatCalls(g, front) + if Dead(g1, c) then CleanupCalls(g1, c) else []
  }

  lemma {:induction false} BeatNext(g: Registry, clients: seq<Socket>, i: nat)
    requires i < |clients|
    ensures var g1, c := Beat(g, clients[..i]), clients[i];
            && Beat(g, clients[..i + 1]) == (if Dead(g1, c) then Cleanup(g1, c) else g1.(alive := g1.alive[c := false]))
            && BeatCalls(g, clients[..i + 1]) ==
               BeatCalls(g, clients[..i]) + (if Dead(g1, c) then CleanupCalls(g1, c) else [])
  {
    assert clients[..i + 1][..i] == clients[..i];
  }

  /** The clients the heartbeat terminates. */
  function Terminated(g: Registry, clients: seq<Socket>): set<Socket> {
    set c | c in clients && Dead(g, c)
  }

  lemma {:induction false} TerminatedNext(g: Registry, clients: seq<Socket>, i: nat)
    requires i < |clients|
    ensures Terminated(g, clients[..i + 1]) ==
            Terminated(g, clients[..i]) + (if Dead(g, clients[i]) then {clients[i]} else {})
  {
    assert clients[..i + 1] == clients[..i] + [clients[i]];
  }

  ghost predicate DistinctSockets(cs: seq<Socket>) {
    forall i, j :: 0 <= i < j < |cs| ==> cs[i] != cs[j]
  }

  /** One beat removes exactly the clients that were marked dead, from every room and user, and marks
      every other client. */
  lemma {:induction false} BeatExact(g: Registry, clients: seq<Socket>)
    requires WellFormed(g) && DistinctSockets(clients)
    ensures WellFormed(Beat(g, clients))
    ensures forall r :: Sockets(Beat(g, clients), r) == Sockets(g, r) - Terminated(g, clients)
    ensures forall u :: UserSockets(Beat(g, clients), u) == UserSockets(g, u) - Terminated(g, clients)
    ensures forall c :: c in clients ==> Dead(Beat(g, clients), c)
    ensures forall c :: c !in clients ==> Dead(Beat(g, clients), c) == Dead(g, c)
    decreases |clients|
  {
    if clients != [] {
      var front, c := clients[..|clients| - 1], clients[|clients| - 1];
      assert clients == front + [c];
      BeatExact(g, front);
      var g1 := Beat(g, front);
      assert c !in front;
      assert Terminated(g, clients) == Terminated(g, front) + (if Dead(g, c) then {c} else {});
      if Dead(g1, c) {
        CleanupExact(g1, c);
        CleanupWellFormed(g1, c);
      }
    }
  }

  /** A client's turn finds it as it was before the beat. */
  lemma {:induction false} BeatTurn(g: Registry, clients: seq<Socket>, i: nat)
    requires WellFormed(g) && DistinctSockets(clients) && i < |clients|
    ensures Dead(Beat(g, clients[..i]), clients[i]) == Dead(g, clients[i])
  {
    assert clients[i] !in clients[..i];
    BeatExact(g, clients[..i]);
  }

  // --- Which clients a beat terminates ---------------------------------------------------------------

  /** What the heartbeat depends on: connections, pongs, and the beats themselves. */
  datatype Signal = Connected(socket: Socket, user: User) | Ponged(socket: Socket) | Beats(clients: seq<Socket>)

  function Pong(g: Registry, s: Socket): Registry {
    g.(alive := g.alive[s := true])
  }

  ghost predicate SignalOk(g: Registry, signal: Signal) {
    match signal
    case Connected(s, _) => s !in g.userOf
    case Ponged(_) => true
    case Beats(clients) => DistinctSockets(clients)
  }

  ghost function AfterSignal(g: Registry, signal: Signal): (g': Registry)
    requires WellFormed(g) && SignalOk(g, signal)
    ensures WellFormed(g')
  {
    match signal
    case Connected(s, u) => Connect(g, s, u)
    case Ponged(s) => Pong(g, s)
    case Beats(clients) => BeatExact(g, clients); Beat(g, clients)
  }

  /** The registry after these signals; an impossible one changes nothing. */
  ghost function Signalled(signals: seq<Signal>): (g: Registry)
    ensures WellFormed(g)
  {
    if signals == [] then Start()
    else
      var g, last := Signalled(signals[..|signals| - 1]), signals[|signals| - 1];
      if SignalOk(g, last) then AfterSignal(g, last) else g
  }

  ghost predicate Possible(signals: seq<Signal>) {
    signals == [] ||
    var front, last := signals[..|signals| - 1], signals[|signals| - 1];
    Possible(front) && SignalOk(Signalled(front), last)
  }

  /** A beat has reached the socket, and since then it has neither connected nor answered. */
  predicate Silent(signals: seq<Signal>, s: Socket) {
    if signals == [] then false
    else
      var front := signals[..|signals| - 1];
      match signals[|signals| - 1]
      case Connected(c, _) => c != s && Silent(front, s)
      case Ponged(c) => c != s && Silent(front, s)
      case Beats(clients) => s in clients || Silent(front, s)
  }

  lemma {:induction false} DeadIffSilent(signals: seq<Signal>, s: Socket)
    requires Possible(signals)
    ensures Dead(Signalled(signals), s) <==> Silent(signals, s)
    decreases |signals|
  {
    if signals != [] {
      var front, last := signals[..|signals| - 1], signals[|signals| - 1];
      DeadIffSilent(front, s);
      match last
      case Connected(c, u) => ConnectExact(Signalled(front), c, u);
      case Ponged(_) =>
      case Beats(clients) => BeatExact(Signalled(front), clients);
    }
  }

  /** Over every history of connections, pongs and beats, a beat terminates exactly those of its clients that an
      earlier beat has reached and that have been silent since; a client that no beat has reached is kept. */
  lemma {:induction false} TerminatedIff(signals: seq<Signal>, clients: seq<Socket>, s: Socket)
    requires Possible(signals)
    ensures s in Terminated(Signalled(signals), clients) <==> s in clients && Silent(signals, s)
  {
    DeadIffSilent(signals, s);
  }
}
