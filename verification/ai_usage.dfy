/**
 * The daily AI quota kept in the `ai_usage` table: one row per user and day
 * with a message count and a token count.
 *
 * A lookup is `.select().eq(user).eq(date).single()`: it yields the row when
 * exactly one row matches, and otherwise no row and the error code
 * "PGRST116". A failure of the store itself is a parameter (`fault`).
 */
module AiUsage {
  import opened Wrappers

  datatype Usage = Usage(id: string, userId: string, date: string, messageCount: int, tokenCount: int)

  datatype DbError = DbError(code: string, message: string)

  /** The code of `.single()` when zero or several rows match. */
  const NoRowsCode := "PGRST116"

  const NoRowsError := DbError(NoRowsCode, "JSON object requested, multiple (or no) rows returned")

  const MessageLimitReached := "Daily AI chat message limit reached."
  const TokenLimitReached := "Daily AI chat token limit reached."

  /** What a `.single()` query returns: `{ data, error }`. */
  datatype Fetched = Fetched(usage: Option<Usage>, error: Option<DbError>)

  datatype LimitError = StoreError(e: DbError) | LimitReached(message: string)

  /** What `checkUserLimits` returns: `{ allowed, usage, error }`. */
  datatype LimitCheck = LimitCheck(allowed: bool, usage: Option<Usage>, error: Option<LimitError>)

  predicate SameDay(u: Usage, userId: string, date: string)
  {
    u.userId == userId && u.date == date
  }

  /** The rows of one user and day, in table order. */
  function Matching(rows: seq<Usage>, userId: string, date: string): (r: seq<Usage>)
    ensures |r| <= |rows|
    ensures forall u :: u in r <==> u in rows && SameDay(u, userId, date)
  {
    if |rows| == 0 then []
    else if SameDay(rows[0], userId, date) then [rows[0]] + Matching(rows[1..], userId, date)
    else Matching(rows[1..], userId, date)
  }

  /** The `.single()` lookup of the row for (userId, date). */
  function Lookup(rows: seq<Usage>, userId: string, date: string, fault: Option<DbError>): (f: Fetched)
    ensures fault.Some? ==> f == Fetched(None, fault)
    ensures fault.None? ==> (f.usage.Some? <==> |Matching(rows, userId, date)| == 1)
    ensures fault.None? && f.usage.None? ==> f.error == Some(NoRowsError)
    ensures fault.None? && |Matching(rows, userId, date)| == 1 ==> f.usage == Some(Matching(rows, userId, date)[0])
    ensures f.usage.Some? ==> f.usage.value in rows && SameDay(f.usage.value, userId, date) && f.error.None?
  {
    if fault.Some? then Fetched(None, fault)
    else
      var m := Matching(rows, userId, date);
      if |m| == 1 then
        assert m[0] in m;
        Fetched(Some(m[0]), None)
      else Fetched(None, Some(NoRowsError))
  }

  /**
   * `checkUserLimits` on the fetched row: a store error other than "no single
   * row" refuses first, then the message limit, then the token limit.
   */
  function CheckUserLimits(f: Fetched, messageLimit: int, tokenLimit: int): (r: LimitCheck)
    ensures f.error.Some? && f.error.value.code != NoRowsCode ==>
      r == LimitCheck(false, None, Some(StoreError(f.error.value)))
    ensures (f.error.None? || f.error.value.code == NoRowsCode) && f.usage.Some? && f.usage.value.messageCount >= messageLimit ==>
      r == LimitCheck(false, f.usage, Some(LimitReached(MessageLimitReached)))
    ensures (&& (f.error.None? || f.error.value.code == NoRowsCode) && f.usage.Some?
             && f.usage.value.messageCount < messageLimit && f.usage.value.tokenCount >= tokenLimit) ==>
      r == LimitCheck(false, f.usage, Some(LimitReached(TokenLimitReached)))
    ensures r.allowed <==>
      && (f.error.None? || f.error.value.code == NoRowsCode)
      && (f.usage.None? || (f.usage.value.messageCount < messageLimit && f.usage.value.tokenCount < tokenLimit))
    ensures r.allowed ==> r == LimitCheck(true, f.usage, None)
  {
    if f.error.Some? && f.error.value.code != NoRowsCode then
      LimitCheck(false, None, Some(StoreError(f.error.value)))
    else if f.usage.Some? && f.usage.value.messageCount >= messageLimit then
      LimitCheck(false, f.usage, Some(LimitReached(MessageLimitReached)))
    else if f.usage.Some? && f.usage.value.tokenCount >= tokenLimit then
      LimitCheck(false, f.usage, Some(LimitReached(TokenLimitReached)))
    else
      LimitCheck(true, f.usage, None)
  }

  /** `.update({message_count, token_count}).eq("id", id)`: every row with that id gets both counts. */
  function SetCounts(rows: seq<Usage>, id: string, messages: int, tokens: int): (r: seq<Usage>)
    ensures |r| == |rows|
    ensures forall j :: 0 <= j < |rows| ==>
      r[j] == if rows[j].id == id then rows[j].(messageCount := messages, tokenCount := tokens) else rows[j]
  {
    if |rows| == 0 then []
    else
      var head := if rows[0].id == id then rows[0].(messageCount := messages, tokenCount := tokens) else rows[0];
      [head] + SetCounts(rows[1..], id, messages, tokens)
  }

  /** The table after `incrementUserUsage`, given what its lookup returned. */
  function Incremented(rows: seq<Usage>, userId: string, date: string, tokens: int, newId: string, f: Fetched): seq<Usage>
  {
    match f.usage
    case Some(u) => SetCounts(rows, u.id, u.messageCount + 1, u.tokenCount + tokens)
    case None => rows + [Usage(newId, userId, date, 1, tokens)]
  }

  predicate UniqueIds(rows: seq<Usage>)
  {
    forall i, j :: 0 <= i < j < |rows| ==> rows[i].id != rows[j].id
  }

  /** At most one row per user and day. */
  predicate OneRowPerDay(rows: seq<Usage>)
  {
    forall i, j :: 0 <= i < j < |rows| ==> !SameDay(rows[j], rows[i].userId, rows[i].date)
  }

  /** The day's message total over every row of that user and day. */
  function MessagesOn(rows: seq<Usage>, userId: string, date: string): int
  {
    if |rows| == 0 then 0
    else (if SameDay(rows[0], userId, date) then rows[0].messageCount else 0) + MessagesOn(rows[1..], userId, date)
  }

  /** The day's token total over every row of that user and day. */
  function TokensOn(rows: seq<Usage>, userId: string, date: string): int
  {
    if |rows| == 0 then 0
    else (if SameDay(rows[0], userId, date) then rows[0].tokenCount else 0) + TokensOn(rows[1..], userId, date)
  }

  lemma {:induction false} TotalsAppend(rows: seq<Usage>, u: Usage, userId: string, date: string)
    ensures MessagesOn(rows + [u], userId, date) == MessagesOn(rows, userId, date) + (if SameDay(u, userId, date) then u.messageCount else 0)
    ensures TokensOn(rows + [u], userId, date) == TokensOn(rows, userId, date) + (if SameDay(u, userId, date) then u.tokenCount else 0)
    decreases |rows|
  {
    if |rows| > 0 {
      assert (rows + [u])[1..] == rows[1..] + [u];
      TotalsAppend(rows[1..], u, userId, date);
    }
  }

  /** Setting the counts of the one row with a given id moves the day's totals by the change on that row. */
  lemma {:induction false} TotalsSetCounts(rows: seq<Usage>, k: nat, messages: int, tokens: int, userId: string, date: string)
    requires k < |rows| && UniqueIds(rows) && SameDay(rows[k], userId, date)
    ensures MessagesOn(SetCounts(rows, rows[k].id, messages, tokens), userId, date) == MessagesOn(rows, userId, date) - rows[k].messageCount + messages
    ensures TokensOn(SetCounts(rows, rows[k].id, messages, tokens), userId, date) == TokensOn(rows, userId, date) - rows[k].tokenCount + tokens
    decreases |rows|
  {
    var id := rows[k].id;
    var r := SetCounts(rows, id, messages, tokens);
    assert r[1..] == SetCounts(rows[1..], id, messages, tokens);
    if k == 0 {
      NoIdTotals(rows[1..], id, messages, tokens, userId, date);
    } else {
      TotalsSetCounts(rows[1..], k - 1, messages, tokens, userId, date);
    }
  }

  lemma NoIdTotals(rows: seq<Usage>, id: string, messages: int, tokens: int, userId: string, date: string)
    requires forall j :: 0 <= j < |rows| ==> rows[j].id != id
    ensures SetCounts(rows, id, messages, tokens) == rows
  {
  }

  /**
   * With distinct row ids, an increment adds exactly one message and `tokens`
   * tokens to the day's totals, whatever the lookup returned.
   */
  lemma IncrementTotals(rows: seq<Usage>, userId: string, date: string, tokens: int, newId: string, fault: Option<DbError>)
    requires UniqueIds(rows)
    ensures var after := Incremented(rows, userId, date, tokens, newId, Lookup(rows, userId, date, fault));
      && MessagesOn(after, userId, date) == MessagesOn(rows, userId, date) + 1
      && TokensOn(after, userId, date) == TokensOn(rows, userId, date) + tokens
  {
    FetchedTotals(rows, userId, date, tokens, newId, Lookup(rows, userId, date, fault));
  }

  /** The same, for any fetched row that belongs to the table and the day. */
  lemma FetchedTotals(rows: seq<Usage>, userId: string, date: string, tokens: int, newId: string, f: Fetched)
    requires UniqueIds(rows)
    requires f.usage.Some? ==> f.usage.value in rows && SameDay(f.usage.value, userId, date)
    ensures MessagesOn(Incremented(rows, userId, date, tokens, newId, f), userId, date) == MessagesOn(rows, userId, date) + 1
    ensures TokensOn(Incremented(rows, userId, date, tokens, newId, f), userId, date) == TokensOn(rows, userId, date) + tokens
  {
    match f.usage
    case Some(u) =>
      assert Incremented(rows, userId, date, tokens, newId, f) == SetCounts(rows, u.id, u.messageCount + 1, u.tokenCount + tokens);
      var k :| 0 <= k < |rows| && rows[k] == u;
      TotalsSetCounts(rows, k, u.messageCount + 1, u.tokenCount + tokens, userId, date);
    case None =>
      assert Incremented(rows, userId, date, tokens, newId, f) == rows + [Usage(newId, userId, date, 1, tokens)];
      TotalsAppend(rows, Usage(newId, userId, date, 1, tokens), userId, date);
  }

  /** The two branches of an increment, row by row. */
  lemma IncrementedShape(rows: seq<Usage>, userId: string, date: string, tokens: int, newId: string, f: Fetched)
    ensures f.usage.None? ==> Incremented(rows, userId, date, tokens, newId, f) == rows + [Usage(newId, userId, date, 1, tokens)]
    ensures f.usage.Some? ==>
      var u := f.usage.value;
      var after := Incremented(rows, userId, date, tokens, newId, f);
      && after == SetCounts(rows, u.id, u.messageCount + 1, u.tokenCount + tokens)
      && |after| == |rows|
      && forall j :: 0 <= j < |rows| ==>
           after[j] == if rows[j].id == u.id
                       then rows[j].(messageCount := u.messageCount + 1, tokenCount := u.tokenCount + tokens)
                       else rows[j]
  {
    match f.usage
    case None =>
    case Some(u) =>
      var after := SetCounts(rows, u.id, u.messageCount + 1, u.tokenCount + tokens);
      assert Incremented(rows, userId, date, tokens, newId, f) == after;
  }

  /** The `ai_usage` table. */
  class UsageTable {
    var rows: seq<Usage>

    constructor (rows: seq<Usage>)
      ensures this.rows == rows
    {
      this.rows := rows;
    }

    /** `checkUserLimits`: reads the table, changes nothing. */
    method CheckLimits(userId: string, today: string, messageLimit: int, tokenLimit: int, fault: Option<DbError>)
      returns (r: LimitCheck)
      ensures r == CheckUserLimits(Lookup(rows, userId, today, fault), messageLimit, tokenLimit)
      // Without a store failure: allowed exactly when there is no single row, or its counts are below both limits.
      ensures fault.None? ==> (r.allowed <==>
        var m := Matching(rows, userId, today);
        |m| != 1 || (m[0].messageCount < messageLimit && m[0].tokenCount < tokenLimit))
      ensures fault.Some? ==> (r.allowed <==> fault.value.code == NoRowsCode)
    {
      var f := Lookup(rows, userId, today, fault);
      r := CheckUserLimits(f, messageLimit, tokenLimit);
    }

    /**
     * `incrementUserUsage`: the row found for (userId, today) gets one more
     * message and `tokens` more tokens; without a row found, a new row is
     * inserted with id `newId`.
     */
    method IncrementUserUsage(userId: string, today: string, tokens: int, newId: string, fault: Option<DbError>)
      modifies this
      ensures rows == Incremented(old(rows), userId, today, tokens, newId, Lookup(old(rows), userId, today, fault))
      ensures var f := Lookup(old(rows), userId, today, fault);
        f.usage.None? ==> rows == old(rows) + [Usage(newId, userId, today, 1, tokens)]
      ensures var f := Lookup(old(rows), userId, today, fault);
        f.usage.Some? ==>
          var u := f.usage.value;
          && |rows| == |old(rows)|
          && forall j :: 0 <= j < |rows| ==>
               rows[j] == if old(rows)[j].id == u.id
                          then old(rows)[j].(messageCount := u.messageCount + 1, tokenCount := u.tokenCount + tokens)
                          else old(rows)[j]
    {
      var before := rows;
      var f := Lookup(before, userId, today, fault);
      IncrementedShape(before, userId, today, tokens, newId, f);
      rows := Incremented(before, userId, today, tokens, newId, f);
    }
  }

  /*
   * A failed lookup in `incrementUserUsage` is taken for "no row yet": a
   * second row for the same user and day is inserted. From then on `.single()`
   * finds two rows, answers "PGRST116", and `checkUserLimits` treats that as
   * no usage at all, so the day's limits stop applying.
   */

  /** The counterexample: a user at the message limit, one failed lookup during an increment, then a check. */
  lemma DuplicateRowBypassesLimit()
    ensures
      var before := [Usage("1", "u", "d", 5, 100)];
      var after := Incremented(before, "u", "d", 10, "2", Lookup(before, "u", "d", Some(DbError("08006", "connection failure"))));
      && !CheckUserLimits(Lookup(before, "u", "d", None), 5, 1000).allowed
      && !OneRowPerDay(after)
      && CheckUserLimits(Lookup(after, "u", "d", None), 5, 1000).allowed
  {
    var before := [Usage("1", "u", "d", 5, 100)];
    var after := before + [Usage("2", "u", "d", 1, 10)];
    assert Matching(before, "u", "d") == before;
    assert after[1..] == [Usage("2", "u", "d", 1, 10)];
    assert |Matching(after, "u", "d")| == 2;
  }

  /** The increment as intended: a lookup failure other than "no single row" writes nothing. */
  function IncrementedChecked(rows: seq<Usage>, userId: string, date: string, tokens: int, newId: string, f: Fetched): seq<Usage>
  {
    if f.usage.None? && f.error.Some? && f.error.value.code != NoRowsCode then rows
    else Incremented(rows, userId, date, tokens, newId, f)
  }

  lemma {:induction false} OneRowMatchesAtMostOne(rows: seq<Usage>, userId: string, date: string)
    requires OneRowPerDay(rows)
    ensures |Matching(rows, userId, date)| <= 1
    decreases |rows|
  {
    if |rows| > 0 {
      OneRowMatchesAtMostOne(rows[1..], userId, date);
      if SameDay(rows[0], userId, date) {
        forall j | 0 <= j < |rows[1..]| ensures !SameDay(rows[1..][j], userId, date) {
          assert rows[1..][j] == rows[j + 1];
        }
        NoneMatching(rows[1..], userId, date);
      }
    }
  }

  lemma {:induction false} NoneMatching(rows: seq<Usage>, userId: string, date: string)
    requires forall j :: 0 <= j < |rows| ==> !SameDay(rows[j], userId, date)
    ensures Matching(rows, userId, date) == []
    decreases |rows|
  {
    if |rows| > 0 {
      NoneMatching(rows[1..], userId, date);
    }
  }

  /** The corrected increment keeps one row per user and day. */
  lemma IncrementCheckedKeepsOneRow(rows: seq<Usage>, userId: string, date: string, tokens: int, newId: string, fault: Option<DbError>)
    requires OneRowPerDay(rows)
    requires fault.Some? ==> fault.value.code != NoRowsCode
    ensures OneRowPerDay(IncrementedChecked(rows, userId, date, tokens, newId, Lookup(rows, userId, date, fault)))
  {
    var f := Lookup(rows, userId, date, fault);
    if f.usage.Some? {
      var u := f.usage.value;
      var after := SetCounts(rows, u.id, u.messageCount + 1, u.tokenCount + tokens);
      assert forall j :: 0 <= j < |rows| ==> after[j].userId == rows[j].userId && after[j].date == rows[j].date;
    } else if fault.None? {
      OneRowMatchesAtMostOne(rows, userId, date);
      assert |Matching(rows, userId, date)| == 0;
      var n := Usage(newId, userId, date, 1, tokens);
      var after := rows + [n];
      assert IncrementedChecked(rows, userId, date, tokens, newId, f) == after;
      assert forall j :: 0 <= j < |rows| ==> rows[j] in rows;
      assert forall j :: 0 <= j < |rows| ==> !SameDay(rows[j], userId, date);
      forall i, j | 0 <= i < j < |after| ensures !SameDay(after[j], after[i].userId, after[i].date) {
        if j == |rows| {
          assert after[j] == n && after[i] == rows[i];
        } else {
          assert after[j] == rows[j] && after[i] == rows[i];
        }
      }
    }
  }
}
