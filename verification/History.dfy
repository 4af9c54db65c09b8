/** Catch-up over the WebSocket: the history page a join sends, and clients that follow its cursor. */
module History {
  import opened ChatTypes

  const PAGE_LIMIT: nat := 100

  datatype Reply = Reply(messages: seq<Message>, nextCursor: nat)

  /** `WHERE seq > lastSeen`, on the room's rows in seq order. */
  function After(rows: seq<Message>, lastSeen: nat): seq<Message> {
    if rows == [] then []
    else (if rows[0].seqNo > lastSeen then [rows[0]] else []) + After(rows[1..], lastSeen)
  }

  /** `LIMIT limit`. */
  function Limit(rows: seq<Message>, limit: nat): seq<Message> {
    if |rows| <= limit then rows else rows[..limit]
  }

  /** The history frame of `handleJoinRoom`. */
  function Page(rows: seq<Message>, lastSeen: nat): Reply {
    var messages := Limit(After(rows, lastSeen), PAGE_LIMIT);
    Reply(messages, if |messages| > 0 then messages[|messages| - 1].seqNo else lastSeen)
  }

  lemma {:induction false} AfterNumbered(rows: seq<Message>, lo: nat, lastSeen: nat)
    requires Numbered(rows, lo, lo + |rows|)
    ensures After(rows, lastSeen) ==
            if lastSeen < lo then rows else if lastSeen - lo + 1 <= |rows| then rows[lastSeen - lo + 1..] else []
  {
    if rows != [] {
      AfterNumbered(rows[1..], lo + 1, lastSeen);
      assert rows == [rows[0]] + rows[1..];
    }
  }

  lemma LimitOf(rows: seq<Message>, lastSeen: nat)
    requires Numbered(rows, 1, |rows| + 1)
    ensures var rest := if lastSeen <= |rows| then rows[lastSeen..] else [];
            var page := Limit(rest, 100);
            && |page| <= 100 && (|page| < 100 ==> |rows| <= lastSeen + |page|)
            && (lastSeen <= |rows| ==> lastSeen + |page| <= |rows| && page == rows[lastSeen..lastSeen + |page|])
            && (|rows| <= lastSeen ==> page == [])
            && (page != [] ==> page[|page| - 1].seqNo == lastSeen + |page|)
  {
  }

  /** On a gapless room log a page is the stretch just after `lastSeen`, and the cursor is its end. */
  lemma {:induction false} PageOfLog(rows: seq<Message>, lastSeen: nat)
    requires Numbered(rows, 1, |rows| + 1)
    ensures var p := Page(rows, lastSeen);
            && lastSeen <= p.nextCursor <= lastSeen + 100
            && (lastSeen <= |rows| ==> p.nextCursor <= |rows| && p.messages == rows[lastSeen..p.nextCursor])
            && (p.nextCursor < lastSeen + 100 ==> |rows| <= p.nextCursor)
            && (|rows| <= lastSeen ==> p == Reply([], lastSeen))
  {
    AfterNumbered(rows, 1, lastSeen);
    var rest := if lastSeen <= |rows| then rows[lastSeen..] else [];
    assert After(rows, lastSeen) == rest;
    LimitOf(rows, lastSeen);
  }

  // --- Following the cursor ------------------------------------------------------------------------

  /** Where the client stands after `k` joins, each with the cursor the one before returned. */
  function Cursor(logs: nat -> seq<Message>, lastSeen: nat, k: nat): nat {
    if k == 0 then lastSeen else Page(logs(k - 1), Cursor(logs, lastSeen, k - 1)).nextCursor
  }

  /** Everything those joins returned. */
  function Pages(logs: nat -> seq<Message>, lastSeen: nat, k: nat): seq<Message> {
    if k == 0 then []
    else Pages(logs, lastSeen, k - 1) + Page(logs(k - 1), Cursor(logs, lastSeen, k - 1)).messages
  }

  lemma {:induction false} Stretch(log: seq<Message>, log': seq<Message>, lo: nat, mid: nat, hi: nat)
    requires log <= log' && lo <= mid <= hi <= |log| && Numbered(log, 1, |log| + 1)
    ensures log[lo..mid] + log[mid..hi] == log'[lo..hi]
    ensures Numbered(log'[lo..hi], lo + 1, hi + 1)
  {
    assert log'[lo..hi] == log[lo..hi];
  }

  /** What `k` joins amount to: the rows lastSeen+1..cursor of the log as it is by then, contiguous and
      each once; nothing while the client is ahead of the log. */
  ghost predicate CaughtUp(logs: nat -> seq<Message>, lastSeen: nat, k: nat) {
    var cursor, pages := Cursor(logs, lastSeen, k), Pages(logs, lastSeen, k);
    && lastSeen <= cursor
    && Numbered(pages, lastSeen + 1, cursor + 1)
    && if lastSeen <= |logs(k)| then cursor <= |logs(k)| && pages == logs(k)[lastSeen..cursor]
       else cursor == lastSeen && pages == []
  }

  /** Forward catch-up, from any `lastSeen` and whatever was appended between the joins. */
  lemma {:induction false} CatchUpContiguous(logs: nat -> seq<Message>, lastSeen: nat, k: nat)
    requires Growing(logs)
    ensures CaughtUp(logs, lastSeen, k)
  {
    assert Numbered(logs(k), 1, |logs(k)| + 1);
    if k > 0 {
      CatchUpContiguous(logs, lastSeen, k - 1);
      var at := Cursor(logs, lastSeen, k - 1);
      var log := logs(k - 1);
      assert Numbered(log, 1, |log| + 1);
      PageOfLog(log, at);
      assert log <= logs(k - 1 + 1);
      if lastSeen <= |log| {
        Stretch(log, logs(k), lastSeen, at, Cursor(logs, lastSeen, k));
      } else {
        assert Pages(logs, lastSeen, k) == [];
      }
    }
  }

  lemma {:induction false} CursorOnFixedLog(rows: seq<Message>, lastSeen: nat, k: nat)
    requires Numbered(rows, 1, |rows| + 1) && lastSeen <= |rows|
    ensures Cursor(_ => rows, lastSeen, k) ==
            if lastSeen + k * 100 <= |rows| then lastSeen + k * 100 else |rows|
  {
    if k > 0 {
      CursorOnFixedLog(rows, lastSeen, k - 1);
      PageOfLog(rows, Cursor(_ => rows, lastSeen, k - 1));
    }
  }

  /** A fixed backlog of n rows is drained in ceil(n/100) joins: exactly the first ceil(n/100) pages are
      non-empty, and from then on the cursor no longer moves. */
  lemma {:induction false} CatchUpDrains(rows: seq<Message>, lastSeen: nat, k: nat)
    requires Numbered(rows, 1, |rows| + 1) && lastSeen <= |rows|
    ensures var needed := (|rows| - lastSeen + 99) / 100;
            var reply := Page(rows, Cursor(_ => rows, lastSeen, k));
            && (reply.messages != [] <==> k < needed)
            && (k >= needed ==> Cursor(_ => rows, lastSeen, k) == |rows| && reply.nextCursor == |rows|)
  {
    CursorOnFixedLog(rows, lastSeen, k);
    PageOfLog(rows, Cursor(_ => rows, lastSeen, k));
  }

  /** On a growing log a client stays where it is exactly as long as no join has seen a row beyond it. */
  lemma {:induction false} CursorAhead(logs: nat -> seq<Message>, lastSeen: nat, k: nat)
    requires Growing(logs)
    ensures Cursor(logs, lastSeen, k) == lastSeen <==> k == 0 || |logs(k - 1)| <= lastSeen
    ensures Pages(logs, lastSeen, k) == [] <==> k == 0 || |logs(k - 1)| <= lastSeen
  {
    CatchUpContiguous(logs, lastSeen, k);
    if k > 0 {
      CatchUpContiguous(logs, lastSeen, k - 1);
      assert Numbered(logs(k - 1), 1, |logs(k - 1)| + 1);
      PageOfLog(logs(k - 1), Cursor(logs, lastSeen, k - 1));
    }
  }
}
