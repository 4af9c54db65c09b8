/** `GET /rooms/:id/messages`: newest first, by a cursor the client sends back as text. */
module Pagination {
  import opened ChatTypes
  import opened ParseInt

  datatype Error = NotAMember | InvalidCursor
  datatype Result = Ok(messages: seq<Message>, nextCursor: Option<nat>) | Forbidden(error: Error)

  /** The page size a request asks for, between 1 and 100; 50 when it asks for none, for 0 or for no number. */
  function ClampLimit(limitStr: Option<string>): (limit: nat)
    ensures 1 <= limit <= 100
  {
    match Parse(match limitStr case None => "50" case Some(text) => text)
    case NaN => 50
    case Int(n) => if n == 0 then 50 else if n < 1 then 1 else if n > 100 then 100 else n
  }

  /** A whole number is taken between 1 and 100, with 0, an absent limit and one that is no number meaning 50. */
  lemma {:induction false} LimitOfNumber(n: nat)
    ensures ClampLimit(Some(Decimal(n))) == if n == 0 then 50 else if n <= 100 then n else 100
    ensures n > 0 ==> ClampLimit(Some("-" + Decimal(n))) == 1
    ensures ClampLimit(None) == 50
    ensures forall text :: Parse(text) == NaN ==> ClampLimit(Some(text)) == 50
  {
    ParseDecimal(n);
    ParseNegative(n);
    assert Decimal(5) == "5" && Decimal(50) == "50";
    ParseDecimal(50);
  }

  /** The number the cursor's text starts with, if the request has a cursor; the empty text counts as none. */
  function CursorSeq(cursor: Option<string>): Option<Parsed> {
    if cursor == None || cursor == Some("") then None else Some(Parse(cursor.value))
  }

  /** `WHERE seq < bound`, on the room's rows in seq order. */
  function Before(rows: seq<Message>, bound: int): seq<Message> {
    if rows == [] then []
    else (if rows[0].seqNo < bound then [rows[0]] else []) + Before(rows[1..], bound)
  }

  /** `ORDER BY seq DESC`. */
  function Descending(rows: seq<Message>): (d: seq<Message>)
    ensures |d| == |rows|
  {
    seq(|rows|, i requires 0 <= i < |rows| => rows[|rows| - 1 - i])
  }

  function Limit(rows: seq<Message>, limit: nat): seq<Message> {
    if |rows| <= limit then rows else rows[..limit]
  }

  function GetMessages(rows: seq<Message>, member: bool, cursor: Option<string>, limitStr: Option<string>): Result {
    if !member then Forbidden(NotAMember)
    else
      var limit := ClampLimit(limitStr);
      match CursorSeq(cursor)
      case None => Reply(Limit(Descending(rows), limit), limit)
      case Some(NaN) => Forbidden(InvalidCursor)
      case Some(Int(c)) =>
        if c < 1 then Forbidden(InvalidCursor) else Reply(Limit(Descending(Before(rows, c)), limit), limit)
  }

  function Reply(messages: seq<Message>, limit: nat): Result {
    Ok(messages, if |messages| == limit && |messages| > 0 then Some(messages[|messages| - 1].seqNo) else None)
  }

  lemma {:induction false} BeforeNumbered(rows: seq<Message>, lo: nat, bound: nat)
    requires Numbered(rows, lo, lo + |rows|)
    ensures Before(rows, bound) == if bound <= lo then [] else if bound - lo <= |rows| then rows[..bound - lo] else rows
  {
    if rows != [] {
      BeforeNumbered(rows[1..], lo + 1, bound);
      assert rows == [rows[0]] + rows[1..];
    }
  }

  /** The rows a call may still return: all of them, or those below the cursor. */
  function Eligible(rows: seq<Message>, cursor: Option<nat>): seq<Message> {
    match cursor
    case None => rows
    case Some(c) => if c < 1 then [] else if c - 1 <= |rows| then rows[..c - 1] else rows
  }

  function CursorText(cursor: Option<nat>): Option<string> {
    match cursor case None => None case Some(c) => Some(Decimal(c))
  }

  lemma {:induction false} CallOnLog(rows: seq<Message>, cursor: Option<nat>, limitStr: Option<string>)
    requires Numbered(rows, 1, |rows| + 1)
    requires cursor.Some? ==> cursor.value >= 1
    ensures var limit := ClampLimit(limitStr);
            GetMessages(rows, true, CursorText(cursor), limitStr) ==
            Reply(Limit(Descending(Eligible(rows, cursor)), limit), limit)
  {
    if cursor.Some? {
      CursorOf(cursor.value);
      BeforeNumbered(rows, 1, cursor.value);
    }
  }

  /** A cursor's text is read as the cursor. */
  lemma {:induction false} CursorOf(c: nat)
    ensures CursorSeq(Some(Decimal(c))) == Some(Int(c))
  {
    ParseDecimal(c);
  }

  lemma NewestFirst(left: seq<Message>, limit: nat)
    requires limit <= |left|
    ensures Limit(Descending(left), limit) == Descending(left[|left| - limit..])
  {
  }

  lemma EligibleNumbered(rows: seq<Message>, cursor: Option<nat>)
    requires Numbered(rows, 1, |rows| + 1)
    ensures var left := Eligible(rows, cursor); Numbered(left, 1, |left| + 1)
  {
  }

  /** The answer returns the newest of the rows `left` in reverse; its cursor is null exactly when it came up
      short, and otherwise the number of the last row returned. */
  ghost predicate Newest(page: Result, left: seq<Message>, limit: nat) {
    && page.Ok?
    && (|left| < limit ==> page.messages == Descending(left) && page.nextCursor == None)
    && (|left| >= limit ==>
          && page.nextCursor == Some(|left| - limit + 1)
          && page.messages == Descending(left[|left| - limit..]))
  }

  lemma {:induction false} ReplyNumbered(left: seq<Message>, limit: nat)
    requires Numbered(left, 1, |left| + 1) && limit >= 1
    ensures Newest(Reply(Limit(Descending(left), limit), limit), left, limit)
  {
    if |left| >= limit {
      NewestFirst(left, limit);
      assert Descending(left)[limit - 1] == left[|left| - limit];
    }
  }

  /** On a gapless log a call returns the newest eligible rows. */
  lemma {:induction false} PageOfLog(rows: seq<Message>, cursor: Option<nat>, limitStr: Option<string>)
    requires Numbered(rows, 1, |rows| + 1)
    requires cursor.Some? ==> cursor.value >= 1
    ensures Newest(GetMessages(rows, true, CursorText(cursor), limitStr), Eligible(rows, cursor), ClampLimit(limitStr))
  {
    var page, left, limit := GetMessages(rows, true, CursorText(cursor), limitStr), Eligible(rows, cursor),
                             ClampLimit(limitStr);
    CallOnLog(rows, cursor, limitStr);
    assert page == Reply(Limit(Descending(left), limit), limit);
    EligibleNumbered(rows, cursor);
    ReplyNumbered(left, limit);
  }

  // --- Following next_cursor -----------------------------------------------------------------------

  lemma {:induction false} GrowsFrom(logs: nat -> seq<Message>, k: nat)
    requires Growing(logs)
    ensures logs(0) <= logs(k)
  {
    if k > 0 {
      GrowsFrom(logs, k - 1);
      assert logs(k - 1) <= logs(k - 1 + 1);
    }
  }

  /** The answer to the client's k-th call when the cursor it got last is `cursor`. */
  function Call(logs: nat -> seq<Message>, k: nat, cursor: Option<nat>, limitStr: Option<string>): Result {
    GetMessages(logs(k), true, CursorText(cursor), limitStr)
  }

  /** Calls number k, k+1, ... on a log that may have grown in between, until a null cursor, an error,
      or a cursor that fails to decrease; `Traversal` shows that only the null cursor ends it. */
  function Follow(logs: nat -> seq<Message>, k: nat, cursor: nat, limitStr: Option<string>): seq<Message>
    decreases cursor
  {
    var page := Call(logs, k, Some(cursor), limitStr);
    if page.Forbidden? then []
    else if page.nextCursor.Some? && page.nextCursor.value < cursor
    then page.messages + Follow(logs, k + 1, page.nextCursor.value, limitStr)
    else page.messages
  }

  function FollowAll(logs: nat -> seq<Message>, limitStr: Option<string>): seq<Message> {
    var page := Call(logs, 0, None, limitStr);
    if page.Forbidden? then []
    else if page.nextCursor.Some? then page.messages + Follow(logs, 1, page.nextCursor.value, limitStr)
    else page.messages
  }

  lemma EligiblePrefix(rows0: seq<Message>, rows: seq<Message>, cursor: nat)
    requires rows0 <= rows && 1 <= cursor <= |rows0|
    ensures Eligible(rows, Some(cursor)) == rows0[..cursor - 1]
  {
  }

  /** One call with a cursor inside the first page's log, whatever was inserted since: it is accepted,
      and the cursor it returns is smaller. */
  lemma {:induction false} CallBelow(logs: nat -> seq<Message>, k: nat, cursor: nat, limitStr: Option<string>)
    requires Growing(logs) && 1 <= cursor <= |logs(0)|
    ensures var page := Call(logs, k, Some(cursor), limitStr);
            var left := logs(0)[..cursor - 1];
            && page.Ok?
            && (page.nextCursor == None ==> page.messages == Descending(left))
            && (page.nextCursor.Some? ==>
                  1 <= page.nextCursor.value < cursor && page.messages == Descending(left[page.nextCursor.value - 1..]))
  {
    GrowsFrom(logs, k);
    var rows := logs(k);
    assert Numbered(rows, 1, |rows| + 1);
    PageOfLog(rows, Some(cursor), limitStr);
    EligiblePrefix(logs(0), rows, cursor);
  }

  /** One call of the traversal, by what it returns. */
  lemma {:induction false} FollowOne(logs: nat -> seq<Message>, k: nat, cursor: nat, limitStr: Option<string>)
    returns (messages: seq<Message>, next: Option<nat>)
    requires Growing(logs) && 1 <= cursor <= |logs(0)|
    ensures next == None ==>
              messages == Descending(logs(0)[..cursor - 1]) && Follow(logs, k, cursor, limitStr) == messages
    ensures next.Some? ==>
              && 1 <= next.value < cursor
              && messages == Descending(logs(0)[..cursor - 1][next.value - 1..])
              && Follow(logs, k, cursor, limitStr) == messages + Follow(logs, k + 1, next.value, limitStr)
  {
    CallBelow(logs, k, cursor, limitStr);
    var page := Call(logs, k, Some(cursor), limitStr);
    messages, next := page.messages, page.nextCursor;
  }

  /** From a cursor inside the first page's log, following returns the reverse of what lies below it. */
  lemma {:induction false} FollowBelow(logs: nat -> seq<Message>, k: nat, cursor: nat, limitStr: Option<string>)
    requires Growing(logs) && 1 <= cursor <= |logs(0)|
    ensures Follow(logs, k, cursor, limitStr) == Descending(logs(0)[..cursor - 1])
    decreases cursor
  {
    var messages, next := FollowOne(logs, k, cursor, limitStr);
    if next.Some? {
      var left, c := logs(0)[..cursor - 1], next.value;
      FollowBelow(logs, k + 1, c, limitStr);
      TakeTake(logs(0), cursor - 1, c - 1);
      DescendingSplit(left, c - 1);
    }
  }

  lemma TakeTake(rows: seq<Message>, outer: nat, inner: nat)
    requires inner <= outer <= |rows|
    ensures rows[..outer][..inner] == rows[..inner]
  {
  }

  lemma DescendingSplit(rows: seq<Message>, at: nat)
    requires at <= |rows|
    ensures Descending(rows) == Descending(rows[at..]) + Descending(rows[..at])
  {
  }

  lemma {:induction false} FirstCall(logs: nat -> seq<Message>, limitStr: Option<string>)
    requires Growing(logs)
    ensures var page, rows := Call(logs, 0, None, limitStr), logs(0);
            && page.Ok?
            && (page.nextCursor == None ==> page.messages == Descending(rows))
            && (page.nextCursor.Some? ==>
                  && 1 <= page.nextCursor.value <= |rows|
                  && page.messages == Descending(rows[page.nextCursor.value - 1..]))
  {
    assert Numbered(logs(0), 1, |logs(0)| + 1);
    PageOfLog(logs(0), None, limitStr);
  }

  /** Backward pagination under concurrent inserts. From a first call without a cursor, following
      `next_cursor` with one limit until it is null returns exactly the reverse of the log as it stood at
      the first call, with no skip and no repeat, whatever is inserted in the meantime. */
  lemma {:induction false} Traversal(logs: nat -> seq<Message>, limitStr: Option<string>)
    requires Growing(logs)
    ensures FollowAll(logs, limitStr) == Descending(logs(0))
    ensures Call(logs, 0, None, limitStr).Ok?
  {
    FirstCall(logs, limitStr);
    var page := Call(logs, 0, None, limitStr);
    if page.nextCursor.Some? {
      FollowBelow(logs, 1, page.nextCursor.value, limitStr);
      DescendingSplit(logs(0), page.nextCursor.value - 1);
    }
  }

  // --- Who is answered -----------------------------------------------------------------------------

  /** The cursor's text is there, not empty, and reads as no number of at least 1. */
  predicate BadCursor(cursor: Option<string>) {
    cursor.Some? && cursor.value != "" &&
    match Parse(cursor.value) case NaN => true case Int(c) => c < 1
  }

  /** Exactly who is answered, whatever the room holds and whatever limit is asked for: a member whose cursor is
      absent, empty or reads as a number of at least 1. Anyone else is refused, membership coming first. */
  lemma AnsweredIff(rows: seq<Message>, member: bool, cursor: Option<string>, limitStr: Option<string>)
    ensures var result := GetMessages(rows, member, cursor, limitStr);
            && (result.Ok? <==> member && !BadCursor(cursor))
            && (result == Forbidden(NotAMember) <==> !member)
            && (result == Forbidden(InvalidCursor) <==> member && BadCursor(cursor))
  {
  }

  /** In particular a non-member gets no row, and a cursor printed from a number is refused exactly for 0. */
  lemma {:induction false} PrintedCursor(rows: seq<Message>, member: bool, c: nat, limitStr: Option<string>)
    ensures GetMessages(rows, member, Some(Decimal(c)), limitStr).Ok? <==> member && c >= 1
    ensures GetMessages(rows, member, Some("-" + Decimal(c)), limitStr) ==
            Forbidden(if member then InvalidCursor else NotAMember)
  {
    ParseDecimal(c);
    ParseNegative(c);
    AnsweredIff(rows, member, Some(Decimal(c)), limitStr);
    AnsweredIff(rows, member, Some("-" + Decimal(c)), limitStr);
  }
}
