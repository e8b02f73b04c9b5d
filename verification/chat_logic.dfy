/**
 * The chat panel's message list (the `useChatLogic` hook): `handleSend` sends
 * the typed message, streams the reply into the list and rolls back on
 * failure; `fetchMessages` loads the stored conversation.
 *
 * The response is a parameter (`Outcome`): the request throws, the server
 * answers with an error status, or the body arrives as a sequence of decoded
 * text chunks, possibly followed by a read that throws. `JSON.parse` of the
 * buffer is a function that yields the reply fields, or None when the buffer
 * is not (yet) valid JSON.
 */
module ChatLogic {
  import opened Wrappers
  import opened Text
  import opened Chat

  /** The fields the hook reads from a parsed buffer. */
  datatype StreamReply = StreamReply(content: string, action: Option<string>)

  /** The body of an error response, as `response.json()` gives it. */
  datatype ErrorBody =
    | BadJson                   // response.json() throws
    | ErrorText(text: string)   // errorData.error
    | NoErrorText               // no `error` field

  datatype Outcome =
    | FetchFails
    | NotOk(status: int, body: ErrorBody)
    | Streamed(chunks: seq<string>, readFails: bool)

  /** The action kinds after which the notes are refreshed. */
  const RefreshKinds: set<string> := {
    "create_note", "update_note", "delete_note", "complete_note", "uncomplete_note",
    "delete_all_notes", "restore_last_deleted_note", "restore_note_from_notes_table"
  }

  /** A failed response that is reported as the daily limit (the user's message stays). */
  predicate IsLimitResponse(status: int, body: ErrorBody)
  {
    status == 429 || (body.ErrorText? && body.text != "" && Contains(ToLower(body.text), "limit"))
  }

  /** The chunks read so far, concatenated, as `assistantMessage` accumulates them. */
  function Buffer(chunks: seq<string>): string
  {
    if |chunks| == 0 then "" else Buffer(chunks[..|chunks| - 1]) + chunks[|chunks| - 1]
  }

  /** `parsed.content`: the reply's content, or the raw buffer when it does not parse. */
  function ShownContent(buffer: string, parse: string -> Option<StreamReply>): string
  {
    match parse(buffer)
    case Some(p) => p.content
    case None => buffer
  }

  /** Whether `parsed.action` is one of the refresh kinds; an unparsed buffer has no action. */
  predicate Refreshes(buffer: string, parse: string -> Option<StreamReply>)
  {
    parse(buffer).Some? && parse(buffer).value.action.Some? && parse(buffer).value.action.value in RefreshKinds
  }

  /** How many of the successive buffers of a stream call for a refresh. */
  function RefreshCount(chunks: seq<string>, parse: string -> Option<StreamReply>): (r: nat)
    ensures r <= |chunks|
  {
    if |chunks| == 0 then 0
    else RefreshCount(chunks[..|chunks| - 1], parse) + (if Refreshes(Buffer(chunks), parse) then 1 else 0)
  }

  /** A stream whose buffers only ever parse to searches or to no action never refreshes. */
  lemma {:induction false} SearchOnlyNeverRefreshes(chunks: seq<string>, parse: string -> Option<StreamReply>)
    requires forall k :: 0 < k <= |chunks| ==>
      parse(Buffer(chunks[..k])).None? || parse(Buffer(chunks[..k])).value.action in {None, Some("search_notes")}
    ensures RefreshCount(chunks, parse) == 0
    decreases |chunks|
  {
    if |chunks| > 0 {
      var init := chunks[..|chunks| - 1];
      forall k | 0 < k <= |init|
        ensures parse(Buffer(init[..k])).None? || parse(Buffer(init[..k])).value.action in {None, Some("search_notes")}
      {
        assert init[..k] == chunks[..k];
      }
      SearchOnlyNeverRefreshes(init, parse);
      assert chunks[..|chunks|] == chunks;
    }
  }

  /** The list after a complete stream of `chunks`: at most one assistant message after the user's. */
  function AfterStream(base: seq<ChatMessage>, chunks: seq<string>, parse: string -> Option<StreamReply>): seq<ChatMessage>
  {
    if |chunks| == 0 then base else base + [AssistantMessage(ShownContent(Buffer(chunks), parse))]
  }

  /** `prev.slice(0, -1)` */
  function DropLast(messages: seq<ChatMessage>): (r: seq<ChatMessage>)
    ensures |messages| > 0 ==> r + [messages[|messages| - 1]] == messages
    ensures |messages| == 0 ==> r == []
  {
    if |messages| == 0 then [] else messages[..|messages| - 1]
  }

  lemma DropLastAppend(messages: seq<ChatMessage>, m: ChatMessage)
    ensures DropLast(messages + [m]) == messages
  {
    assert (messages + [m])[..|messages|] == messages;
  }

  /** The list after the request's outcome, given the list showing the user's message last. */
  function AfterResponse(shown: seq<ChatMessage>, outcome: Outcome, parse: string -> Option<StreamReply>): seq<ChatMessage>
  {
    match outcome
    case FetchFails => DropLast(shown)
    case NotOk(status, body) =>
      if body.BadJson? || !IsLimitResponse(status, body) then DropLast(shown) else shown
    case Streamed(chunks, readFails) =>
      var full := AfterStream(shown, chunks, parse);
      if readFails then DropLast(full) else full
  }

  /** How many refreshes the outcome calls for. */
  function RefreshesAfter(outcome: Outcome, parse: string -> Option<StreamReply>, hasRefresh: bool): nat
  {
    if outcome.Streamed? && hasRefresh then RefreshCount(outcome.chunks, parse) else 0
  }

  /**
   * What a send leaves in the list: a thrown request or a non-limit error
   * takes the user's message back, the daily limit keeps it, a stream adds one
   * reply after it, and a read that throws after some chunks drops that reply
   * but keeps the user's message.
   */
  lemma SendOutcomes(base: seq<ChatMessage>, m: ChatMessage, outcome: Outcome, parse: string -> Option<StreamReply>)
    ensures outcome.FetchFails? ==> AfterResponse(base + [m], outcome, parse) == base
    ensures outcome.NotOk? && (outcome.body.BadJson? || !IsLimitResponse(outcome.status, outcome.body)) ==>
      AfterResponse(base + [m], outcome, parse) == base
    ensures outcome.NotOk? && !outcome.body.BadJson? && IsLimitResponse(outcome.status, outcome.body) ==>
      AfterResponse(base + [m], outcome, parse) == base + [m]
    ensures outcome.Streamed? && |outcome.chunks| > 0 && !outcome.readFails ==>
      AfterResponse(base + [m], outcome, parse) == base + [m, AssistantMessage(ShownContent(Buffer(outcome.chunks), parse))]
    ensures outcome.Streamed? && |outcome.chunks| > 0 && outcome.readFails ==>
      AfterResponse(base + [m], outcome, parse) == base + [m]
    ensures outcome.Streamed? && |outcome.chunks| == 0 ==>
      AfterResponse(base + [m], outcome, parse) == if outcome.readFails then base else base + [m]
  {
    DropLastAppend(base, m);
    if outcome.Streamed? && |outcome.chunks| > 0 {
      var reply := AssistantMessage(ShownContent(Buffer(outcome.chunks), parse));
      assert base + [m] + [reply] == base + [m, reply];
      DropLastAppend(base + [m], reply);
    }
  }

  /** The hook's state. */
  class ChatSession {
    var messages: seq<ChatMessage>
    var input: string
    var loading: bool
    var fetchingMessages: bool
    /** How many times `handleRefresh` has been called. */
    var refreshes: nat

    constructor ()
      ensures messages == [] && input == "" && !loading && !fetchingMessages && refreshes == 0
    {
      messages := [];
      input := "";
      loading := false;
      fetchingMessages := false;
      refreshes := 0;
    }

    /** `fetchMessages`: the stored conversation replaces the list; a failed request leaves it. */
    method FetchMessages(response: Option<seq<ChatMessage>>)
      modifies this
      ensures messages == if response.Some? then response.value else old(messages)
      ensures !fetchingMessages
      ensures input == old(input) && loading == old(loading) && refreshes == old(refreshes)
    {
      fetchingMessages := true;
      if response.Some? {
        messages := response.value;
      }
      fetchingMessages := false;
    }

    /**
     * The read loop of `handleSend`: each chunk extends the buffer, the parsed
     * content replaces the assistant message at the end of the list or is
     * pushed after the user's message, and a refresh kind calls `handleRefresh`.
     */
    method ReadStream(chunks: seq<string>, parse: string -> Option<StreamReply>, hasRefresh: bool)
      requires |messages| > 0 && messages[|messages| - 1].role != "assistant"
      modifies this
      ensures messages == AfterStream(old(messages), chunks, parse)
      ensures refreshes == old(refreshes) + (if hasRefresh then RefreshCount(chunks, parse) else 0)
      ensures input == old(input) && loading == old(loading) && fetchingMessages == old(fetchingMessages)
    {
      var assistantMessage := "";
      var k := 0;
      while k < |chunks|
        invariant 0 <= k <= |chunks|
        invariant assistantMessage == Buffer(chunks[..k])
        invariant messages == AfterStream(old(messages), chunks[..k], parse)
        invariant refreshes == old(refreshes) + (if hasRefresh then RefreshCount(chunks[..k], parse) else 0)
        invariant input == old(input) && loading == old(loading) && fetchingMessages == old(fetchingMessages)
      {
        assert chunks[..k + 1][..k] == chunks[..k];
        assistantMessage := assistantMessage + chunks[k];
        var content := ShownContent(assistantMessage, parse);
        if |messages| > 0 && messages[|messages| - 1].role == "assistant" {
          messages := messages[..|messages| - 1] + [AssistantMessage(content)];
        } else {
          messages := messages + [AssistantMessage(content)];
        }
        if hasRefresh && Refreshes(assistantMessage, parse) {
          refreshes := refreshes + 1;
        }
        k := k + 1;
      }
      assert chunks[..|chunks|] == chunks;
    }

    /**
     * `handleSend`. `sent` tells whether a request was made; `hasRefresh`
     * whether the hook was given a `handleRefresh` callback.
     */
    method HandleSend(outcome: Outcome, parse: string -> Option<StreamReply>, hasRefresh: bool)
      returns (sent: bool)
      modifies this
      ensures fetchingMessages == old(fetchingMessages)
      // Blank input: nothing happens.
      ensures sent <==> Trim(old(input)) != ""
      ensures !sent ==>
        messages == old(messages) && input == old(input) && loading == old(loading) && refreshes == old(refreshes)
      // Otherwise the trimmed input is shown, the input cleared, and the outcome decides the rest.
      ensures sent ==>
        && input == "" && !loading
        && messages == AfterResponse(old(messages) + [UserMessage(Trim(old(input)))], outcome, parse)
        && refreshes == old(refreshes) + RefreshesAfter(outcome, parse, hasRefresh)
    {
      var userMessage := Trim(input);
      if userMessage == "" {
        return false;
      }
      sent := true;
      Send(userMessage, outcome, parse, hasRefresh);
    }

    /** `handleSend` past the blank-input guard, for the trimmed message. */
    method Send(userMessage: string, outcome: Outcome, parse: string -> Option<StreamReply>, hasRefresh: bool)
      modifies this
      ensures fetchingMessages == old(fetchingMessages) && input == "" && !loading
      ensures messages == AfterResponse(old(messages) + [UserMessage(userMessage)], outcome, parse)
      ensures refreshes == old(refreshes) + RefreshesAfter(outcome, parse, hasRefresh)
    {
      loading := true;
      input := "";
      var shown := messages + [UserMessage(userMessage)];
      assert shown[|shown| - 1].role == "user";
      messages := shown;
      Respond(outcome, parse, hasRefresh);
      loading := false;
    }

    /**
     * The part of `handleSend` after the user's message is shown: the outcome
     * of the request either takes that message back or streams the reply.
     */
    method Respond(outcome: Outcome, parse: string -> Option<StreamReply>, hasRefresh: bool)
      requires |messages| > 0 && messages[|messages| - 1].role == "user"
      modifies this
      ensures input == old(input) && loading == old(loading) && fetchingMessages == old(fetchingMessages)
      ensures messages == AfterResponse(old(messages), outcome, parse)
      ensures refreshes == old(refreshes) + RefreshesAfter(outcome, parse, hasRefresh)
    {
      match outcome {
        case FetchFails =>
          messages := DropLast(messages);
        case NotOk(status, body) =>
          if body.BadJson? || !IsLimitResponse(status, body) {
            messages := DropLast(messages);
          }
        case Streamed(chunks, readFails) =>
          ReadStream(chunks, parse, hasRefresh);
          if readFails {
            messages := DropLast(messages);
          }
      }
    }
  }
}
