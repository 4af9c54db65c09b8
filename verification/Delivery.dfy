/** The delivery load test's accounting: a receiver's duplicate and order monitor and a sender's record of
    what it sent and got back. */
module Delivery {
  import opened ChatTypes
  import ParseInt

  /** A message object of a received frame, as far as the accounting looks at it. */
  datatype Payload =
    | Malformed(text: Option<string>)
    | LiveMessage(seqNo: int, sender: User, content: string)

  /** `isValidMessagePayload`, of the fields kept here: the types are right and `seq >= 1`. */
  predicate IsValid(p: Payload) {
    p.LiveMessage? && p.seqNo >= 1
  }

  function ContentOf(p: Payload): Option<string> {
    match p
    case Malformed(c) => c
    case LiveMessage(_, _, c) => Some(c)
  }

  // --- The receiver --------------------------------------------------------------------------------

  datatype Monitor = Monitor(
    received: nat,
    seenSeqs: set<int>,
    lastSeqPerSender: map<User, int>,
    duplicates: nat,     // seq_duplicates
    outOfOrder: nat)     // seq_out_of_order

  const NEW_MONITOR := Monitor(0, {}, map[], 0, 0)

  function LastOf(m: Monitor, u: User): int {
    if u in m.lastSeqPerSender then m.lastSeqPerSender[u] else 0
  }

  function Observe(m: Monitor, p: Payload): Monitor {
    if !IsValid(p) then m.(received := m.received + 1)
    else
      var inOrder := p.seqNo > LastOf(m, p.sender);
      Monitor(m.received + 1,
              m.seenSeqs + {p.seqNo},
              if inOrder then m.lastSeqPerSender[p.sender := p.seqNo] else m.lastSeqPerSender,
              m.duplicates + (if p.seqNo in m.seenSeqs then 1 else 0),
              m.outOfOrder + (if inOrder then 0 else 1))
  }

  function ObserveAll(m: Monitor, stream: seq<Payload>): Monitor {
    if stream == [] then m
    else Observe(ObserveAll(m, stream[..|stream| - 1]), stream[|stream| - 1])
  }

  /** The numbers of the valid messages of a stream, in arrival order. */
  function Seqs(stream: seq<Payload>): seq<int> {
    if stream == [] then []
    else Seqs(stream[..|stream| - 1]) + if IsValid(stream[|stream| - 1]) then [stream[|stream| - 1].seqNo] else []
  }

  /** The numbers of one sender's valid messages, in arrival order. */
  function SeqsOf(stream: seq<Payload>, u: User): (s: seq<int>)
    ensures forall i :: 0 <= i < |s| ==> s[i] >= 1
  {
    if stream == [] then []
    else
      var last := stream[|stream| - 1];
      SeqsOf(stream[..|stream| - 1], u) + if IsValid(last) && last.sender == u then [last.seqNo] else []
  }

  function Distinct(xs: seq<int>): set<int> {
    set x | x in xs
  }

  predicate Increasing(xs: seq<int>) {
    forall i, j :: 0 <= i < j < |xs| ==> xs[i] < xs[j]
  }

  lemma {:induction false} SeqsSnoc(front: seq<Payload>, p: Payload)
    ensures Seqs(front + [p]) == if IsValid(p) then Seqs(front) + [p.seqNo] else Seqs(front)
    ensures Distinct(Seqs(front + [p])) ==
            if IsValid(p) then Distinct(Seqs(front)) + {p.seqNo} else Distinct(Seqs(front))
  {
    assert (front + [p])[..|front|] == front;
    if IsValid(p) {
      var xs := Seqs(front) + [p.seqNo];
      assert forall x :: x in xs <==> x in Seqs(front) || x == p.seqNo;
    }
  }

  /** Soundness and completeness of the duplicate counter: over any stream it is the number of valid
      messages less the number of distinct numbers among them. */
  lemma {:induction false} DuplicatesExact(stream: seq<Payload>)
    ensures var m := ObserveAll(NEW_MONITOR, stream);
            && m.received == |stream|
            && m.seenSeqs == Distinct(Seqs(stream))
            && m.duplicates == |Seqs(stream)| - |Distinct(Seqs(stream))|
  {
    if stream == [] {
      assert Distinct(Seqs(stream)) == {};
    } else {
      var front, p := stream[..|stream| - 1], stream[|stream| - 1];
      DuplicatesExact(front);
      assert stream == front + [p];
      SeqsSnoc(front, p);
      var seen := Distinct(Seqs(front));
      assert IsValid(p) && p.seqNo in seen ==> seen + {p.seqNo} == seen;
    }
  }

  lemma {:induction false} NoDuplicates(xs: seq<int>)
    ensures |Distinct(xs)| <= |xs|
    ensures |Distinct(xs)| == |xs| <==> forall i, j :: 0 <= i < j < |xs| ==> xs[i] != xs[j]
  {
    if xs != [] {
      var front, x := xs[..|xs| - 1], xs[|xs| - 1];
      NoDuplicates(front);
      assert xs == front + [x];
      assert Distinct(xs) == Distinct(front) + {x};
      if x in front {
        var i :| 0 <= i < |front| && front[i] == x;
        assert xs[i] == xs[|xs| - 1];
        assert Distinct(xs) == Distinct(front);
      }
    }
  }

  ghost predicate OrderedBySender(stream: seq<Payload>) {
    forall u :: Increasing(SeqsOf(stream, u))
  }

  /** The largest number, 0 when there is none. */
  function Peak(xs: seq<int>): (p: int)
    ensures forall i :: 0 <= i < |xs| ==> xs[i] <= p
  {
    if xs == [] then 0
    else
      var front, last := Peak(xs[..|xs| - 1]), xs[|xs| - 1];
      if last > front then last else front
  }

  lemma {:induction false} PeakBelow(xs: seq<int>, x: int)
    requires x > 0 && forall i :: 0 <= i < |xs| ==> xs[i] < x
    ensures Peak(xs) < x
  {
    if xs != [] {
      PeakBelow(xs[..|xs| - 1], x);
    }
  }

  lemma {:induction false} IncreasingSnoc(xs: seq<int>, x: int)
    requires x >= 1
    ensures Increasing(xs + [x]) <==> Increasing(xs) && x > Peak(xs)
    ensures Peak(xs + [x]) == if x > Peak(xs) then x else Peak(xs)
  {
    var ys := xs + [x];
    assert ys[..|xs|] == xs;
    assert forall i :: 0 <= i < |xs| ==> ys[i] == xs[i];
    if Increasing(ys) {
      assert forall i :: 0 <= i < |xs| ==> ys[i] < ys[|xs|];
      PeakBelow(xs, x);
    }
  }

  lemma {:induction false} SeqsOfSnoc(front: seq<Payload>, p: Payload, u: User)
    ensures SeqsOf(front + [p], u) ==
            if IsValid(p) && p.sender == u then SeqsOf(front, u) + [p.seqNo] else SeqsOf(front, u)
  {
    assert (front + [p])[..|front|] == front;
  }

  lemma {:induction false} OrderSnoc(front: seq<Payload>, p: Payload)
    ensures OrderedBySender(front + [p]) <==>
            OrderedBySender(front) && (IsValid(p) ==> p.seqNo > Peak(SeqsOf(front, p.sender)))
  {
    forall u
      ensures Increasing(SeqsOf(front + [p], u)) <==>
              Increasing(SeqsOf(front, u)) && (IsValid(p) && p.sender == u ==> p.seqNo > Peak(SeqsOf(front, u)))
    {
      SeqsOfSnoc(front, p, u);
      if IsValid(p) && p.sender == u {
        IncreasingSnoc(SeqsOf(front, u), p.seqNo);
      }
    }
    if OrderedBySender(front + [p]) {
      assert IsValid(p) ==> Increasing(SeqsOf(front + [p], p.sender));
    }
  }

  lemma LastOfObserve(m: Monitor, p: Payload)
    ensures var m' := Observe(m, p);
            var inOrder := IsValid(p) && p.seqNo > LastOf(m, p.sender);
            && m'.outOfOrder == m.outOfOrder + (if IsValid(p) && !inOrder then 1 else 0)
            && forall u :: LastOf(m', u) == if inOrder && u == p.sender then p.seqNo else LastOf(m, u)
  {
  }

  lemma {:induction false} PeakSnoc(front: seq<Payload>, p: Payload)
    ensures forall u :: Peak(SeqsOf(front + [p], u)) ==
                        if IsValid(p) && p.sender == u && p.seqNo > Peak(SeqsOf(front, u)) then p.seqNo
                        else Peak(SeqsOf(front, u))
  {
    forall u ensures Peak(SeqsOf(front + [p], u)) ==
                     if IsValid(p) && p.sender == u && p.seqNo > Peak(SeqsOf(front, u)) then p.seqNo
                     else Peak(SeqsOf(front, u))
    {
      SeqsOfSnoc(front, p, u);
      if IsValid(p) {
        IncreasingSnoc(SeqsOf(front, u), p.seqNo);
      }
    }
  }

  lemma {:induction false} ObserveSnoc(front: seq<Payload>, p: Payload)
    ensures ObserveAll(NEW_MONITOR, front + [p]) == Observe(ObserveAll(NEW_MONITOR, front), p)
  {
    assert (front + [p])[..|front|] == front;
  }

  /** The i-th message is valid, and an earlier valid one of its sender had at least its number. */
  predicate LateAt(stream: seq<Payload>, i: nat)
    requires i < |stream|
  {
    IsValid(stream[i]) &&
    exists j :: 0 <= j < i && IsValid(stream[j]) && stream[j].sender == stream[i].sender &&
                stream[j].seqNo >= stream[i].seqNo
  }

  function LatePositions(stream: seq<Payload>): set<nat> {
    set i: nat | i < |stream| && LateAt(stream, i)
  }

  /** The largest number is that of some message, and no message's number is larger. */
  lemma {:induction false} PeakIsLargest(stream: seq<Payload>, u: User, x: int)
    requires x >= 1
    ensures x <= Peak(SeqsOf(stream, u)) <==>
            exists j :: 0 <= j < |stream| && IsValid(stream[j]) && stream[j].sender == u && stream[j].seqNo >= x
  {
    if stream != [] {
      var front, p := stream[..|stream| - 1], stream[|stream| - 1];
      assert stream == front + [p];
      PeakIsLargest(front, u, x);
      PeakSnoc(front, p);
      assert forall j :: 0 <= j < |front| ==> stream[j] == front[j];
    }
  }

  lemma {:induction false} LateFront(front: seq<Payload>, p: Payload, i: nat)
    requires i < |front|
    ensures LateAt(front + [p], i) <==> LateAt(front, i)
  {
    assert forall j :: 0 <= j <= i ==> (front + [p])[j] == front[j];
  }

  /** A message is late when it is behind its sender's largest number. */
  predicate Behind(front: seq<Payload>, p: Payload) {
    IsValid(p) && p.seqNo <= Peak(SeqsOf(front, p.sender))
  }

  lemma {:induction false} LateLast(front: seq<Payload>, p: Payload)
    ensures LateAt(front + [p], |front|) <==> Behind(front, p)
  {
    if IsValid(p) {
      PeakIsLargest(front, p.sender, p.seqNo);
      assert forall j :: 0 <= j < |front| ==> (front + [p])[j] == front[j];
    }
  }

  lemma {:induction false} LateSnoc(front: seq<Payload>, p: Payload)
    ensures LatePositions(front + [p]) == LatePositions(front) + if Behind(front, p) then {|front|} else {}
  {
    forall i: nat | i < |front| ensures LateAt(front + [p], i) <==> LateAt(front, i) {
      LateFront(front, p, i);
    }
    LateLast(front, p);
  }

  lemma {:induction false} MonitorPeaks(stream: seq<Payload>)
    ensures forall u :: LastOf(ObserveAll(NEW_MONITOR, stream), u) == Peak(SeqsOf(stream, u))
  {
    if stream != [] {
      var front, p := stream[..|stream| - 1], stream[|stream| - 1];
      assert stream == front + [p];
      MonitorPeaks(front);
      ObserveSnoc(front, p);
      LastOfObserve(ObserveAll(NEW_MONITOR, front), p);
      PeakSnoc(front, p);
    }
  }

  lemma {:induction false} OutOfOrderSnoc(front: seq<Payload>, p: Payload)
    ensures ObserveAll(NEW_MONITOR, front + [p]).outOfOrder ==
            ObserveAll(NEW_MONITOR, front).outOfOrder + if Behind(front, p) then 1 else 0
  {
    MonitorPeaks(front);
    ObserveSnoc(front, p);
    LastOfObserve(ObserveAll(NEW_MONITOR, front), p);
  }

  /** The order counter is exactly the number of valid messages that come after one of the same sender with at
      least their number, so zero exactly when each sender's messages arrive in strictly increasing order; and
      the monitor always knows each sender's largest number so far. */
  lemma {:induction false} OrderCounterExact(stream: seq<Payload>)
    ensures var m := ObserveAll(NEW_MONITOR, stream);
            && m.outOfOrder == |LatePositions(stream)|
            && (m.outOfOrder == 0 <==> OrderedBySender(stream))
            && forall u :: LastOf(m, u) == Peak(SeqsOf(stream, u))
  {
    MonitorPeaks(stream);
    CountsLate(stream);
    SilentIffOrdered(stream);
  }

  lemma {:induction false} CountsLate(stream: seq<Payload>)
    ensures ObserveAll(NEW_MONITOR, stream).outOfOrder == |LatePositions(stream)|
  {
    if stream == [] {
      assert LatePositions(stream) == {};
    } else {
      var front, p := stream[..|stream| - 1], stream[|stream| - 1];
      assert stream == front + [p];
      CountsLate(front);
      OutOfOrderSnoc(front, p);
      LateSnoc(front, p);
    }
  }

  lemma {:induction false} SilentIffOrdered(stream: seq<Payload>)
    ensures ObserveAll(NEW_MONITOR, stream).outOfOrder == 0 <==> OrderedBySender(stream)
  {
    if stream != [] {
      var front, p := stream[..|stream| - 1], stream[|stream| - 1];
      assert stream == front + [p];
      SilentIffOrdered(front);
      OutOfOrderSnoc(front, p);
      OrderSnoc(front, p);
    }
  }

  /** The frame's payload of a live message. */
  function PayloadOf(m: Message): Payload {
    LiveMessage(m.seqNo, m.sender, "")
  }

  function Payloads(ms: seq<Message>): seq<Payload> {
    seq(|ms|, i requires 0 <= i < |ms| => PayloadOf(ms[i]))
  }

  lemma {:induction false} SeqsOfPayloads(ms: seq<Message>)
    requires forall i :: 0 <= i < |ms| ==> ms[i].seqNo >= 1
    ensures |Seqs(Payloads(ms))| == |ms| && forall i :: 0 <= i < |ms| ==> Seqs(Payloads(ms))[i] == ms[i].seqNo
  {
    if ms != [] {
      assert Payloads(ms)[..|ms| - 1] == Payloads(ms[..|ms| - 1]);
      SeqsOfPayloads(ms[..|ms| - 1]);
    }
  }

  lemma {:induction false} OneMore(front: seq<Payload>, p: Payload, u: User)
    requires IsValid(p) && Increasing(SeqsOf(front, u)) && Peak(SeqsOf(front, u)) < p.seqNo
    ensures Increasing(SeqsOf(front + [p], u)) && Peak(SeqsOf(front + [p], u)) <= p.seqNo
  {
    SeqsOfSnoc(front, p, u);
    IncreasingSnoc(SeqsOf(front, u), p.seqNo);
  }

  lemma {:induction false} SenderOfSelection(ms: seq<Message>, u: User)
    requires forall i :: 0 <= i < |ms| ==> ms[i].seqNo >= 1
    requires forall i, j :: 0 <= i < j < |ms| ==> ms[i].seqNo < ms[j].seqNo
    ensures Increasing(SeqsOf(Payloads(ms), u))
    ensures Peak(SeqsOf(Payloads(ms), u)) <= if ms == [] then 0 else ms[|ms| - 1].seqNo
  {
    if ms != [] {
      var front, last := ms[..|ms| - 1], ms[|ms| - 1];
      SenderOfSelection(front, u);
      assert front != [] ==> front[|front| - 1].seqNo < last.seqNo;
      assert Payloads(ms) == Payloads(front) + [PayloadOf(last)];
      OneMore(Payloads(front), PayloadOf(last), u);
    }
  }

  /** A one-room receiver whose live stream selects rows of the room's log in increasing order, as the
      end-to-end order result shows it does, counts no duplicate and no disorder. */
  lemma {:induction false} MonitorStaysSilent(ms: seq<Message>, roomLog: seq<Message>)
    requires Selects(ms, roomLog)
    ensures var m := ObserveAll(NEW_MONITOR, Payloads(ms));
            m.duplicates == 0 && m.outOfOrder == 0
  {
    forall u ensures Increasing(SeqsOf(Payloads(ms), u)) {
      SenderOfSelection(ms, u);
    }
    OrderCounterExact(Payloads(ms));
    DuplicatesExact(Payloads(ms));
    SeqsOfPayloads(ms);
    NoDuplicates(Seqs(Payloads(ms)));
  }

  class Receiver {
    var received: nat
    var seenSeqs: set<int>
    var lastSeqPerSender: map<User, int>
    var duplicates: nat
    var outOfOrder: nat

    function State(): Monitor
      reads this
    {
      Monitor(received, seenSeqs, lastSeqPerSender, duplicates, outOfOrder)
    }

    constructor ()
      ensures State() == NEW_MONITOR
    {
      received, seenSeqs, lastSeqPerSender, duplicates, outOfOrder := 0, {}, map[], 0, 0;
    }

    method ProcessMessage(msg: Payload)
      modifies this
      ensures State() == Observe(old(State()), msg)
    {
      received := received + 1;
      if !IsValid(msg) {
        return;
      }
      if msg.seqNo in seenSeqs {
        duplicates := duplicates + 1;
      } else {
        seenSeqs := seenSeqs + {msg.seqNo};
      }
      var lastForSender := if msg.sender in lastSeqPerSender then lastSeqPerSender[msg.sender] else 0;
      if msg.seqNo <= lastForSender {
        outOfOrder := outOfOrder + 1;
      } else {
        lastSeqPerSender := lastSeqPerSender[msg.sender := msg.seqNo];
      }
    }

    /** A `new_message_batch` frame. */
    method ProcessBatch(batch: seq<Payload>)
      modifies this
      ensures State() == ObserveAll(old(State()), batch)
    {
      for i := 0 to |batch|
        invariant State() == ObserveAll(old(State()), batch[..i])
      {
        assert batch[..i + 1][..i] == batch[..i];
        ProcessMessage(batch[i]);
      }
      assert batch[..|batch|] == batch;
    }
  }

  // --- The sender ----------------------------------------------------------------------------------

  datatype Ledger = Ledger(
    pending: map<string, nat>,    // content -> time sent
    sentContents: set<string>,
    sent: nat,
    delivered: nat,
    samples: nat,                 // deliveryRate samples
    successes: nat,               // of which true
    closed: bool)

  datatype Event =
    | SendTick(now: nat)          // sendLoop
    | Arrive(msg: Payload)        // one message object, from a single or a batch frame
    | SocketClosed

  const NEW_LEDGER := Ledger(map[], {}, 0, 0, 0, 0, false)

  /** `vu${VU}-iter${ITER}-seq${sent}`: the position makes it unique within one run of the sender. */
  function ContentFor(prefix: string, sent: nat): string {
    prefix + ParseInt.Decimal(sent)
  }

  predicate Enabled(l: Ledger, e: Event) {
    !l.closed
  }

  function Record(l: Ledger, prefix: string, limit: nat, e: Event): Ledger {
    match e
    case SendTick(now) =>
      if l.sent >= limit then l
      else
        var content := ContentFor(prefix, l.sent);
        l.(pending := l.pending[content := now], sentContents := l.sentContents + {content}, sent := l.sent + 1)
    case Arrive(msg) =>
      var content := ContentOf(msg);
      if content.None? || content.value !in l.pending then l
      else
        l.(samples := l.samples + 1, successes := l.successes + (if IsValid(msg) then 1 else 0),
           delivered := l.delivered + 1,
           pending := l.pending - {content.value}, sentContents := l.sentContents - {content.value})
    case SocketClosed =>
      l.(samples := l.samples + |l.sentContents|, sentContents := {}, pending := map[], closed := true)
  }

  function RecordAll(l: Ledger, prefix: string, limit: nat, es: seq<Event>): Ledger
    decreases |es|
  {
    if es == [] then l else RecordAll(Record(l, prefix, limit, es[0]), prefix, limit, es[1..])
  }

  predicate Runnable(l: Ledger, prefix: string, limit: nat, es: seq<Event>)
    decreases |es|
  {
    es == [] || (Enabled(l, es[0]) && Runnable(Record(l, prefix, limit, es[0]), prefix, limit, es[1..]))
  }

  /** One of the first `sent` contents. */
  ghost predicate Own(c: string, prefix: string, sent: nat) {
    exists k: nat :: k < sent && c == ContentFor(prefix, k)
  }

  ghost predicate LedgerInv(l: Ledger, prefix: string, limit: nat) {
    && l.sent <= limit
    && l.pending.Keys == l.sentContents
    && (forall c :: c in l.sentContents ==> Own(c, prefix, l.sent))
    && (!l.closed ==> l.sent == l.delivered + |l.sentContents| && l.samples == l.delivered)
    && (l.closed ==> l.sentContents == {} && l.samples == l.sent && l.delivered <= l.sent)
    && l.successes <= l.delivered
  }

  lemma {:induction false} FreshContent(l: Ledger, prefix: string, limit: nat)
    requires LedgerInv(l, prefix, limit)
    ensures ContentFor(prefix, l.sent) !in l.sentContents
  {
    var c := ContentFor(prefix, l.sent);
    if c in l.sentContents {
      var k: nat :| k < l.sent && c == ContentFor(prefix, k);
      assert ParseInt.Decimal(l.sent) == c[|prefix|..] == ParseInt.Decimal(k);
      ParseInt.DecimalInjective(l.sent, k);
    }
  }

  lemma {:induction false} SendInv(l: Ledger, prefix: string, limit: nat, now: nat)
    requires LedgerInv(l, prefix, limit) && !l.closed
    ensures LedgerInv(Record(l, prefix, limit, SendTick(now)), prefix, limit)
  {
    if l.sent < limit {
      FreshContent(l, prefix, limit);
      assert Own(ContentFor(prefix, l.sent), prefix, l.sent + 1);
      forall c | c in l.sentContents ensures Own(c, prefix, l.sent + 1) {
        var k: nat :| k < l.sent && c == ContentFor(prefix, k);
        assert k < l.sent + 1;
      }
    }
  }

  lemma {:induction false} RecordInv(l: Ledger, prefix: string, limit: nat, e: Event)
    requires LedgerInv(l, prefix, limit) && Enabled(l, e)
    ensures LedgerInv(Record(l, prefix, limit, e), prefix, limit)
  {
    if e.SendTick? {
      SendInv(l, prefix, limit, e.now);
    }
  }

  lemma {:induction false} RecordAllInv(l: Ledger, prefix: string, limit: nat, es: seq<Event>)
    requires LedgerInv(l, prefix, limit) && Runnable(l, prefix, limit, es)
    ensures LedgerInv(RecordAll(l, prefix, limit, es), prefix, limit)
    decreases |es|
  {
    if es != [] {
      RecordInv(l, prefix, limit, es[0]);
      RecordAllInv(Record(l, prefix, limit, es[0]), prefix, limit, es[1..]);
    }
  }

  /** Sender accounting conservation. Whatever mix of own, foreign, repeated or malformed messages
      arrives: the pending contents are the unconfirmed ones, everything sent is delivered or
      outstanding, never more than the limit is sent, and once the socket has closed there is exactly one
      rate sample per message sent. */
  lemma {:induction false} SenderConservation(prefix: string, limit: nat, es: seq<Event>)
    requires Runnable(NEW_LEDGER, prefix, limit, es)
    ensures var l := RecordAll(NEW_LEDGER, prefix, limit, es);
            && l.pending.Keys == l.sentContents
            && (!l.closed ==> l.sent == l.delivered + |l.sentContents|)
            && (l.closed ==> l.samples == l.sent)
            && l.successes <= l.delivered <= l.sent <= limit
  {
    RecordAllInv(NEW_LEDGER, prefix, limit, es);
  }

  // --- The ledger read off the events ----------------------------------------------------------------

  function Ticks(es: seq<Event>): nat {
    if es == [] then 0 else Ticks(es[..|es| - 1]) + if es[|es| - 1].SendTick? then 1 else 0
  }

  /** How many messages the events have sent. */
  function Sent(es: seq<Event>, limit: nat): nat {
    if Ticks(es) < limit then Ticks(es) else limit
  }

  /** When the k-th message was sent. */
  function TimeOf(es: seq<Event>, k: nat): nat
    requires k < Ticks(es)
  {
    var front, last := es[..|es| - 1], es[|es| - 1];
    if k < Ticks(front) then TimeOf(front, k) else last.now
  }

  /** An arrived object, live message or not, has this content. */
  predicate Carries(e: Event, c: string) {
    e.Arrive? && match e.msg case Malformed(text) => text == Some(c) case LiveMessage(_, _, content) => content == c
  }

  /** The first arrival after the k-th send that carries the content sent then. */
  function Echo(es: seq<Event>, prefix: string, k: nat): Option<Payload> {
    if es == [] then None
    else
      var front, last := es[..|es| - 1], es[|es| - 1];
      if Echo(front, prefix, k).Some? then Echo(front, prefix, k)
      else if k < Ticks(front) && Carries(last, ContentFor(prefix, k)) then Some(last.msg)
      else None
  }

  /** Among the first `n` messages sent, how many have come back. */
  function Echoed(es: seq<Event>, prefix: string, n: nat): nat {
    if n == 0 then 0 else Echoed(es, prefix, n - 1) + if Echo(es, prefix, n - 1).Some? then 1 else 0
  }

  /** Of these, how many came back valid the first time. */
  function EchoedValid(es: seq<Event>, prefix: string, n: nat): nat {
    if n == 0 then 0
    else
      var echo := Echo(es, prefix, n - 1);
      EchoedValid(es, prefix, n - 1) + if echo.Some? && IsValid(echo.value) then 1 else 0
  }

  lemma {:induction false} EchoSnoc(es: seq<Event>, e: Event, prefix: string, k: nat)
    ensures Ticks(es + [e]) == Ticks(es) + if e.SendTick? then 1 else 0
    ensures Echo(es + [e], prefix, k) ==
            if Echo(es, prefix, k).Some? then Echo(es, prefix, k)
            else if k < Ticks(es) && Carries(e, ContentFor(prefix, k)) then Some(e.msg)
            else None
  {
    assert (es + [e])[..|es|] == es;
  }

  /** What was sent after the last send has no echo yet. */
  lemma {:induction false} NoEchoBefore(es: seq<Event>, prefix: string, k: nat)
    requires k >= Ticks(es)
    ensures Echo(es, prefix, k) == None
  {
    if es != [] {
      NoEchoBefore(es[..|es| - 1], prefix, k);
    }
  }

  /** An event that carries none of the first `n` contents still outstanding changes no count. */
  lemma {:induction false} EchoedSame(es: seq<Event>, e: Event, prefix: string, n: nat)
    requires forall k: nat :: k < n ==> Echo(es + [e], prefix, k) == Echo(es, prefix, k)
    ensures Echoed(es + [e], prefix, n) == Echoed(es, prefix, n)
    ensures EchoedValid(es + [e], prefix, n) == EchoedValid(es, prefix, n)
  {
    if n > 0 { EchoedSame(es, e, prefix, n - 1); }
  }

  /** An event that answers exactly the k-th content. */
  lemma {:induction false} EchoedOne(es: seq<Event>, e: Event, prefix: string, n: nat, k: nat)
    requires k < n && e.Arrive? && Echo(es, prefix, k) == None && Echo(es + [e], prefix, k) == Some(e.msg)
    requires forall j: nat :: j < n && j != k ==> Echo(es + [e], prefix, j) == Echo(es, prefix, j)
    ensures Echoed(es + [e], prefix, n) == Echoed(es, prefix, n) + 1
    ensures EchoedValid(es + [e], prefix, n) == EchoedValid(es, prefix, n) + if IsValid(e.msg) then 1 else 0
  {
    if k == n - 1 {
      EchoedSame(es, e, prefix, n - 1);
    } else {
      EchoedOne(es, e, prefix, n - 1, k);
    }
  }

  lemma {:induction false} ContentsDiffer(prefix: string, j: nat, k: nat)
    requires ContentFor(prefix, j) == ContentFor(prefix, k)
    ensures j == k
  {
    assert ParseInt.Decimal(j) == ContentFor(prefix, j)[|prefix|..] == ParseInt.Decimal(k);
    ParseInt.DecimalInjective(j, k);
  }

  ghost predicate CountsMatch(l: Ledger, prefix: string, limit: nat, es: seq<Event>) {
    && l.sent == Sent(es, limit) && (l.closed <==> SocketClosed in es)
    && l.delivered == Echoed(es, prefix, l.sent) && l.successes == EchoedValid(es, prefix, l.sent)
  }

  /** The k-th content is outstanding in an open ledger exactly when it was sent and has not come back. */
  ghost predicate PendingMatches(l: Ledger, prefix: string, es: seq<Event>) {
    !l.closed ==> forall k: nat ::
      ContentFor(prefix, k) in l.pending <==> k < l.sent && Echo(es, prefix, k) == None
  }

  ghost predicate TimesMatch(l: Ledger, prefix: string, es: seq<Event>)
    requires l.sent <= Ticks(es)
  {
    forall k: nat :: k < l.sent && ContentFor(prefix, k) in l.pending ==>
      l.pending[ContentFor(prefix, k)] == TimeOf(es, k)
  }

  /** What the events say about the ledger. */
  ghost predicate LedgerMatches(l: Ledger, prefix: string, limit: nat, es: seq<Event>) {
    CountsMatch(l, prefix, limit, es) && PendingMatches(l, prefix, es) && TimesMatch(l, prefix, es)
  }

  lemma {:induction false} TickEchoes(prefix: string, es: seq<Event>, now: nat, n: nat)
    requires n >= Ticks(es)
    ensures var es' := es + [SendTick(now)];
            && Ticks(es') == Ticks(es) + 1
            && (forall k: nat :: Echo(es', prefix, k) == Echo(es, prefix, k))
            && Echo(es, prefix, n) == None
  {
    var e := SendTick(now);
    EchoSnoc(es, e, prefix, 0);
    NoEchoBefore(es, prefix, n);
    forall k: nat ensures Echo(es + [e], prefix, k) == Echo(es, prefix, k) {
      EchoSnoc(es, e, prefix, k);
    }
  }

  lemma {:induction false} TimeSnoc(es: seq<Event>, e: Event, k: nat)
    ensures k < Ticks(es) ==> k < Ticks(es + [e]) && TimeOf(es + [e], k) == TimeOf(es, k)
    ensures k == Ticks(es) && e.SendTick? ==> k < Ticks(es + [e]) && TimeOf(es + [e], k) == e.now
  {
    assert (es + [e])[..|es|] == es;
  }

  lemma {:induction false} TickPending(l: Ledger, prefix: string, limit: nat, now: nat, k: nat)
    requires !l.closed && l.sent < limit
    ensures var l' := Record(l, prefix, limit, SendTick(now));
            && (ContentFor(prefix, k) in l'.pending <==> k == l.sent || ContentFor(prefix, k) in l.pending)
            && l'.pending[ContentFor(prefix, l.sent)] == now
            && (k != l.sent && ContentFor(prefix, k) in l.pending ==>
                  l'.pending[ContentFor(prefix, k)] == l.pending[ContentFor(prefix, k)])
  {
    if ContentFor(prefix, k) == ContentFor(prefix, l.sent) { ContentsDiffer(prefix, k, l.sent); }
  }

  lemma {:induction false} TickPendings(l: Ledger, prefix: string, limit: nat, es: seq<Event>, now: nat)
    requires !l.closed && l.sent == Sent(es, limit) && PendingMatches(l, prefix, es) && TimesMatch(l, prefix, es)
    ensures var l', es' := Record(l, prefix, limit, SendTick(now)), es + [SendTick(now)];
            l'.sent <= Ticks(es') && PendingMatches(l', prefix, es') && TimesMatch(l', prefix, es')
  {
    var e, l' := SendTick(now), Record(l, prefix, limit, SendTick(now));
    TickEchoes(prefix, es, now, Ticks(es));
    forall k: nat
      ensures ContentFor(prefix, k) in l'.pending <==> k < l'.sent && Echo(es + [e], prefix, k) == None
      ensures k < l'.sent && ContentFor(prefix, k) in l'.pending ==>
                l'.pending[ContentFor(prefix, k)] == TimeOf(es + [e], k)
    {
      TimeSnoc(es, e, k);
      if l.sent < limit { TickPending(l, prefix, limit, now, k); }
    }
  }

  lemma {:induction false} TickCounts(l: Ledger, prefix: string, limit: nat, es: seq<Event>, now: nat)
    requires CountsMatch(l, prefix, limit, es) && !l.closed
    ensures CountsMatch(Record(l, prefix, limit, SendTick(now)), prefix, limit, es + [SendTick(now)])
  {
    var e, es', n := SendTick(now), es + [SendTick(now)], l.sent;
    TickEchoes(prefix, es, now, Ticks(es));
    EchoedSame(es, e, prefix, n);
    assert SocketClosed in es' <==> SocketClosed in es;
    if n < limit {
      assert Echo(es', prefix, n) == None;
      assert Echoed(es', prefix, n + 1) == Echoed(es', prefix, n);
      assert EchoedValid(es', prefix, n + 1) == EchoedValid(es', prefix, n);
    }
  }

  lemma {:induction false} TickMatches(l: Ledger, prefix: string, limit: nat, es: seq<Event>, now: nat)
    requires LedgerInv(l, prefix, limit) && !l.closed && LedgerMatches(l, prefix, limit, es)
    ensures LedgerMatches(Record(l, prefix, limit, SendTick(now)), prefix, limit, es + [SendTick(now)])
  {
    TickPendings(l, prefix, limit, es, now);
    TickCounts(l, prefix, limit, es, now);
  }

  lemma {:induction false} ArriveMatches(l: Ledger, prefix: string, limit: nat, es: seq<Event>, msg: Payload)
    requires LedgerInv(l, prefix, limit) && !l.closed && LedgerMatches(l, prefix, limit, es)
    ensures LedgerMatches(Record(l, prefix, limit, Arrive(msg)), prefix, limit, es + [Arrive(msg)])
  {
    var e, c := Arrive(msg), ContentOf(msg);
    EchoSnoc(es, e, prefix, 0);
    assert SocketClosed in es + [e] <==> SocketClosed in es;
    ArriveTimes(l, prefix, limit, es, msg);
    if c.Some? && c.value in l.pending {
      assert Own(c.value, prefix, l.sent);
      var k: nat :| k < l.sent && c.value == ContentFor(prefix, k);
      ArriveOne(l, prefix, limit, es, msg, k);
      assert l.pending.Keys - {c.value} == Record(l, prefix, limit, e).pending.Keys;
    } else {
      ArriveNone(l, prefix, limit, es, msg);
    }
  }

  lemma {:induction false} ArriveTimes(l: Ledger, prefix: string, limit: nat, es: seq<Event>, msg: Payload)
    requires LedgerInv(l, prefix, limit) && !l.closed && LedgerMatches(l, prefix, limit, es)
    ensures l.sent <= Ticks(es + [Arrive(msg)])
    ensures TimesMatch(Record(l, prefix, limit, Arrive(msg)), prefix, es + [Arrive(msg)])
  {
    EchoSnoc(es, Arrive(msg), prefix, 0);
    forall k: nat | k < l.sent && ContentFor(prefix, k) in l.pending
      ensures TimeOf(es + [Arrive(msg)], k) == TimeOf(es, k)
    {
      TimeSnoc(es, Arrive(msg), k);
    }
  }

  /** An arrival that carries nothing outstanding is no echo. */
  lemma {:induction false} ArriveNone(l: Ledger, prefix: string, limit: nat, es: seq<Event>, msg: Payload)
    requires LedgerInv(l, prefix, limit) && !l.closed && LedgerMatches(l, prefix, limit, es)
    requires ContentOf(msg).None? || ContentOf(msg).value !in l.pending
    ensures var es' := es + [Arrive(msg)];
            && (forall k: nat :: k < l.sent ==> Echo(es', prefix, k) == Echo(es, prefix, k))
            && Echoed(es', prefix, l.sent) == Echoed(es, prefix, l.sent)
            && EchoedValid(es', prefix, l.sent) == EchoedValid(es, prefix, l.sent)
  {
    forall k: nat | k < l.sent ensures Echo(es + [Arrive(msg)], prefix, k) == Echo(es, prefix, k) {
      EchoSnoc(es, Arrive(msg), prefix, k);
    }
    EchoedSame(es, Arrive(msg), prefix, l.sent);
  }

  lemma {:induction false} ArriveOne(l: Ledger, prefix: string, limit: nat, es: seq<Event>, msg: Payload, k: nat)
    requires LedgerInv(l, prefix, limit) && !l.closed && LedgerMatches(l, prefix, limit, es)
    requires k < l.sent && ContentOf(msg) == Some(ContentFor(prefix, k)) && ContentFor(prefix, k) in l.pending
    ensures var es' := es + [Arrive(msg)];
            && Echo(es', prefix, k) == Some(msg)
            && (forall j: nat :: j != k ==> Echo(es', prefix, j) == Echo(es, prefix, j))
            && (forall j: nat :: j != k ==> ContentFor(prefix, j) != ContentFor(prefix, k))
            && Echoed(es', prefix, l.sent) == Echoed(es, prefix, l.sent) + 1
            && EchoedValid(es', prefix, l.sent) == EchoedValid(es, prefix, l.sent) + if IsValid(msg) then 1 else 0
  {
    var e := Arrive(msg);
    EchoSnoc(es, e, prefix, k);
    forall j: nat | j != k
      ensures ContentFor(prefix, j) != ContentFor(prefix, k) && Echo(es + [e], prefix, j) == Echo(es, prefix, j)
    {
      if ContentFor(prefix, j) == ContentFor(prefix, k) { ContentsDiffer(prefix, j, k); }
      EchoSnoc(es, e, prefix, j);
    }
    EchoedOne(es, e, prefix, l.sent, k);
  }

  lemma {:induction false} CloseMatches(l: Ledger, prefix: string, limit: nat, es: seq<Event>)
    requires LedgerMatches(l, prefix, limit, es)
    ensures LedgerMatches(Record(l, prefix, limit, SocketClosed), prefix, limit, es + [SocketClosed])
  {
    forall k: nat ensures Echo(es + [SocketClosed], prefix, k) == Echo(es, prefix, k) {
      EchoSnoc(es, SocketClosed, prefix, k);
    }
    EchoSnoc(es, SocketClosed, prefix, 0);
    EchoedSame(es, SocketClosed, prefix, l.sent);
    assert SocketClosed in es + [SocketClosed];
  }

  lemma {:induction false} RecordSnoc(l: Ledger, prefix: string, limit: nat, es: seq<Event>)
    requires es != [] && Runnable(l, prefix, limit, es)
    ensures var front, last := es[..|es| - 1], es[|es| - 1];
            && Runnable(l, prefix, limit, front) && Enabled(RecordAll(l, prefix, limit, front), last)
            && RecordAll(l, prefix, limit, es) == Record(RecordAll(l, prefix, limit, front), prefix, limit, last)
    decreases |es|
  {
    var front := es[..|es| - 1];
    if |es| == 1 {
      assert es[1..] == [];
    } else {
      RecordSnoc(Record(l, prefix, limit, es[0]), prefix, limit, es[1..]);
      assert es[1..][..|es| - 2] == front[1..];
    }
  }

  lemma {:induction false} MatchesRun(prefix: string, limit: nat, es: seq<Event>)
    requires Runnable(NEW_LEDGER, prefix, limit, es)
    ensures LedgerMatches(RecordAll(NEW_LEDGER, prefix, limit, es), prefix, limit, es)
    decreases |es|
  {
    if es != [] {
      var front, last := es[..|es| - 1], es[|es| - 1];
      assert es == front + [last];
      RecordSnoc(NEW_LEDGER, prefix, limit, es);
      MatchesRun(prefix, limit, front);
      RecordAllInv(NEW_LEDGER, prefix, limit, front);
      var l := RecordAll(NEW_LEDGER, prefix, limit, front);
      match last
      case SendTick(now) => TickMatches(l, prefix, limit, front, now);
      case Arrive(msg) => ArriveMatches(l, prefix, limit, front, msg);
      case SocketClosed => CloseMatches(l, prefix, limit, front);
    }
  }

  /** The whole ledger from the events alone. As many messages are sent as there are ticks, up to the limit. A
      content is outstanding in an open ledger exactly when it has been sent and nothing that carries it has
      arrived since; the delivered ones are those with such an arrival, the successes those whose first such
      arrival is valid; and there is one sample for each delivered message, or after the close for each message
      sent. */
  lemma {:induction false} LedgerExact(prefix: string, limit: nat, es: seq<Event>)
    requires Runnable(NEW_LEDGER, prefix, limit, es)
    ensures var l := RecordAll(NEW_LEDGER, prefix, limit, es);
            var n := Sent(es, limit);
            && l.sent == n && (l.closed <==> SocketClosed in es)
            && l.delivered == Echoed(es, prefix, n) && l.successes == EchoedValid(es, prefix, n)
            && l.samples == (if l.closed then n else Echoed(es, prefix, n))
            && (forall c :: c in l.pending <==>
                  !l.closed && exists k: nat :: k < n && c == ContentFor(prefix, k) && Echo(es, prefix, k) == None)
            && (forall k: nat :: k < n && ContentFor(prefix, k) in l.pending ==>
                  l.pending[ContentFor(prefix, k)] == TimeOf(es, k))
  {
    MatchesRun(prefix, limit, es);
    RecordAllInv(NEW_LEDGER, prefix, limit, es);
    var l := RecordAll(NEW_LEDGER, prefix, limit, es);
    forall c | c in l.pending
      ensures !l.closed && exists k: nat ::
                k < Sent(es, limit) && c == ContentFor(prefix, k) && Echo(es, prefix, k) == None
    {
      assert Own(c, prefix, l.sent);
    }
  }

  lemma {:induction false} OpenRun(l: Ledger, prefix: string, limit: nat, es: seq<Event>)
    requires !l.closed
    ensures Runnable(l, prefix, limit, es) <==> forall i :: 0 <= i < |es| - 1 ==> !es[i].SocketClosed?
    decreases |es|
  {
    if es != [] {
      var l1 := Record(l, prefix, limit, es[0]);
      assert forall i :: 0 <= i < |es[1..]| ==> es[1..][i] == es[i + 1];
      assert l1.closed <==> es[0].SocketClosed?;
      if !l1.closed { OpenRun(l1, prefix, limit, es[1..]); }
    }
  }

  /** Until its socket closes the sender takes whatever comes, and nothing after it. */
  lemma {:induction false} EventsPossibleIff(prefix: string, limit: nat, es: seq<Event>)
    ensures Runnable(NEW_LEDGER, prefix, limit, es) <==> forall i :: 0 <= i < |es| - 1 ==> !es[i].SocketClosed?
  {
    OpenRun(NEW_LEDGER, prefix, limit, es);
  }

  class Sender {
    const prefix: string
    const limit: nat
    var pending: map<string, nat>
    var sentContents: set<string>
    var sent: nat
    var delivered: nat
    var samples: nat
    var successes: nat
    var closed: bool

    function State(): Ledger
      reads this
    {
      Ledger(pending, sentContents, sent, delivered, samples, successes, closed)
    }

    constructor (prefix: string, limit: nat)
      ensures State() == NEW_LEDGER && this.prefix == prefix && this.limit == limit
    {
      this.prefix, this.limit := prefix, limit;
      pending, sentContents, sent, delivered, samples, successes, closed := map[], {}, 0, 0, 0, 0, false;
    }

    /** Returns the content of the frame sent, if any. */
    method SendLoop(now: nat) returns (frame: Option<string>)
      modifies this
      ensures State() == Record(old(State()), prefix, limit, SendTick(now))
      ensures frame == if old(sent) >= limit then None else Some(ContentFor(prefix, old(sent)))
    {
      if sent >= limit {
        return None;
      }
      var content := ContentFor(prefix, sent);
      pending := pending[content := now];
      sentContents := sentContents + {content};
      sent := sent + 1;
      frame := Some(content);
    }

    method ProcessReceivedMessage(msg: Payload)
      modifies this
      ensures State() == Record(old(State()), prefix, limit, Arrive(msg))
    {
      var valid := IsValid(msg);
      var content := ContentOf(msg);
      if content.Some? && content.value in pending {
        samples := samples + 1;
        successes := successes + if valid then 1 else 0;
        delivered := delivered + 1;
        pending := pending - {content.value};
        sentContents := sentContents - {content.value};
      }
    }

    method OnClose()
      modifies this
      ensures State() == Record(old(State()), prefix, limit, SocketClosed)
    {
      var left := sentContents;
      while left != {}
        invariant left <= sentContents
        invariant samples == old(samples) + |sentContents| - |left|
        invariant State() == old(State()).(samples := samples)
      {
        var content :| content in left;
        samples := samples + 1;
        left := left - {content};
      }
      sentContents := {};
      pending := map[];
      closed := true;
    }
  }
}
