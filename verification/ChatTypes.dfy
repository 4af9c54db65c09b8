/** The entities every part of the system talks about, and the per-room view of a message list. */
module ChatTypes {

  datatype Option<+T> = None | Some(value: T)

  datatype Room = Room(id: string)
  datatype User = User(id: string)
  datatype Socket = Socket(id: nat)

  /** A row of `messages`, and equally the NOTIFY payload its trigger builds from that row. */
  datatype Message = Message(room: Room, seqNo: nat, sender: User)

  /** The messages of one room, in the order of the list they come from. */
  function InRoom(ms: seq<Message>, r: Room): seq<Message> {
    if ms == [] then []
    else (if ms[0].room == r then [ms[0]] else []) + InRoom(ms[1..], r)
  }

  lemma {:induction false} InRoomConcat(a: seq<Message>, b: seq<Message>, r: Room)
    ensures InRoom(a + b, r) == InRoom(a, r) + InRoom(b, r)
  {
    if a == [] {
      assert a + b == b;
    } else {
      assert (a + b)[1..] == a[1..] + b;
      InRoomConcat(a[1..], b, r);
    }
  }

  lemma {:induction false} InRoomMembers(ms: seq<Message>, r: Room)
    ensures forall m :: m in InRoom(ms, r) <==> m in ms && m.room == r
  {
    if ms != [] {
      InRoomMembers(ms[1..], r);
      assert ms == [ms[0]] + ms[1..];
    }
  }

  /** A list that already belongs to one room is its own view of that room and empty for the others. */
  lemma {:induction false} InRoomPure(ms: seq<Message>, owner: Room, r: Room)
    requires forall m :: m in ms ==> m.room == owner
    ensures InRoom(ms, r) == if r == owner then ms else []
  {
    if ms != [] {
      assert ms[0] in ms;
      InRoomPure(ms[1..], owner, r);
      assert ms == [ms[0]] + ms[1..];
    }
  }

  /** The messages carry exactly the numbers lo, lo+1, ..., hi-1, in this order. */
  ghost predicate Numbered(ms: seq<Message>, lo: nat, hi: nat) {
    lo + |ms| == hi && forall i :: 0 <= i < |ms| ==> ms[i].seqNo == lo + i
  }

  /** `ms` is a strictly increasing selection of the rows of `roomLog`: no duplicate, no reorder,
      nothing that was not committed. */
  ghost predicate Selects(ms: seq<Message>, roomLog: seq<Message>) {
    && (forall i :: 0 <= i < |ms| ==> 1 <= ms[i].seqNo <= |roomLog| && roomLog[ms[i].seqNo - 1] == ms[i])
    && (forall i, j :: 0 <= i < j < |ms| ==> ms[i].seqNo < ms[j].seqNo)
  }

  /** Losing a stretch of a selection leaves a selection. */
  lemma {:induction false} SelectsDrop(a: seq<Message>, b: seq<Message>, c: seq<Message>, roomLog: seq<Message>)
    requires Selects(a + b + c, roomLog)
    ensures Selects(a + c, roomLog)
  {
    var whole, part := a + b + c, a + c;
    assert forall i :: 0 <= i < |part| ==> part[i] == whole[if i < |a| then i else i + |b|];
  }

  /** Rows appended to the log may be appended to the selection. */
  lemma SelectsExtend(ms: seq<Message>, roomLog: seq<Message>, rows: seq<Message>)
    requires Selects(ms, roomLog)
    requires Numbered(rows, |roomLog| + 1, |roomLog| + 1 + |rows|)
    ensures Selects(ms + rows, roomLog + rows)
    ensures Selects(ms, roomLog + rows)
  {
  }

  /** A room's log as read by one client at successive moments: gapless, and only ever appended to. */
  ghost predicate Growing(logs: nat -> seq<Message>) {
    && (forall k: nat :: Numbered(logs(k), 1, |logs(k)| + 1))
    && (forall k: nat :: logs(k) <= logs(k + 1))
  }

  lemma Assoc<T>(a: seq<T>, b: seq<T>, c: seq<T>)
    ensures (a + b) + c == a + (b + c)
  {
  }
}
