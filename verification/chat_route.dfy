/**
 * The `POST` handler of src/app/api/chat/route.js: it builds a prompt from the
 * stored chat history, records the user's message, asks the model, extracts
 * an action from the reply, runs it against the notes table and records the
 * final reply.
 *
 * The model is a function from prompt to reply text (None when the call
 * fails); JSON decoding is a function from text to an optional action. The
 * system text, which embeds the user's notes, is a parameter.
 */
module ChatRoute {
  import opened Wrappers
  import opened Text
  import opened Chat
  import opened NotesActions

  /**
   * What `/{[\s\S]*}/` matches in the model's text: from the first '{' to the
   * last '}', when some '{' comes before some '}'.
   */
  function ActionSpan(text: string): (r: Option<string>)
    ensures r.Some? <==> exists i, j :: 0 <= i < j < |text| && text[i] == '{' && text[j] == '}'
    ensures r.Some? ==> |r.value| >= 2 && r.value[0] == '{' && r.value[|r.value| - 1] == '}'
    ensures r.Some? ==> exists i :: OccursAt(text, r.value, i) && '{' !in text[..i] && '}' !in text[i + |r.value|..]
  {
    match (FirstIndexOf(text, '{'), LastIndexOf(text, '}'))
    case (Some(i), Some(j)) =>
      if i < j then
        assert OccursAt(text, text[i..j + 1], i);
        Some(text[i..j + 1])
      else
        None
    case _ => None
  }

  /**
   * The action decoded from the model's text: the span if there is one, else
   * the whole text. A parse failure is None.
   */
  function ExtractAction(text: string, parse: string -> Option<Action>): Option<Action>
  {
    match ActionSpan(text)
    case Some(span) => parse(span)
    case None => parse(text)
  }

  /** A reply without braces is parsed whole. */
  lemma PlainReplyParsedWhole(text: string, parse: string -> Option<Action>)
    requires '{' !in text || '}' !in text
    ensures ExtractAction(text, parse) == parse(text)
  {
  }

  /** One line of the history: "User: ..." for role "user", "Assistant: ..." for any other role. */
  function HistoryLine(m: ChatMessage): string
  {
    (if m.role == "user" then "User" else "Assistant") + ": " + m.content
  }

  function HistoryLines(history: seq<ChatMessage>): (r: seq<string>)
    ensures |r| == |history|
    ensures forall i :: 0 <= i < |history| ==> r[i] == HistoryLine(history[i])
  {
    if |history| == 0 then [] else [HistoryLine(history[0])] + HistoryLines(history[1..])
  }

  /** The history block of the prompt: the lines in stored order, joined with "\n". */
  function FormatHistory(history: seq<ChatMessage>): string
  {
    Join(HistoryLines(history), "\n")
  }

  /** The prompt: the system text, the history, the new message and the cue for the answer. */
  function Prompt(system: string, history: seq<ChatMessage>, message: string): (r: string)
    ensures system + "\n" <= r
    ensures var tail := "\nUser: " + message + "\nAssistant:";
      && |system| + 1 + |tail| <= |r|
      && r[|r| - |tail|..] == tail
      && r[|system| + 1..|r| - |tail|] == FormatHistory(history)
  {
    var head := system + "\n";
    var middle := FormatHistory(history);
    var tail := "\nUser: " + message + "\nAssistant:";
    var r := head + middle + tail;
    assert r[|r| - |tail|..] == tail;
    assert r[|head|..|r| - |tail|] == middle;
    assert system + "\n" + FormatHistory(history) + "\nUser: " + message + "\nAssistant:" == r;
    r
  }

  /**
   * The history block reads back as one line per stored message, in order, each
   * tagged with its speaker, when no message holds a line break.
   */
  lemma HistoryReadsBack(history: seq<ChatMessage>)
    requires |history| > 0
    requires forall i :: 0 <= i < |history| ==> '\n' !in history[i].content
    ensures |Split(FormatHistory(history), "\n")| == |history|
    ensures forall i :: 0 <= i < |history| ==>
      Split(FormatHistory(history), "\n")[i] == (if history[i].role == "user" then "User: " else "Assistant: ") + history[i].content
  {
    var lines := HistoryLines(history);
    HistoryLinesUnbroken(history);
    assert ['\n'] == "\n";
    SplitJoin(lines, '\n');
    assert Split(FormatHistory(history), "\n") == lines;
    forall i | 0 <= i < |history|
      ensures lines[i] == (if history[i].role == "user" then "User: " else "Assistant: ") + history[i].content
    {
      HistoryLineSpelled(history[i]);
    }
  }

  lemma HistoryLineSpelled(m: ChatMessage)
    ensures HistoryLine(m) == (if m.role == "user" then "User: " else "Assistant: ") + m.content
  {
    if m.role == "user" {
      assert "User" + ": " == "User: ";
    } else {
      assert "Assistant" + ": " == "Assistant: ";
    }
  }

  lemma HistoryLinesUnbroken(history: seq<ChatMessage>)
    requires forall i :: 0 <= i < |history| ==> '\n' !in history[i].content
    ensures forall k :: 0 <= k < |history| ==> '\n' !in HistoryLines(history)[k]
  {
    forall k | 0 <= k < |history| ensures '\n' !in HistoryLines(history)[k] {
      HistoryLineUnbroken(history[k]);
    }
  }

  lemma HistoryLineUnbroken(m: ChatMessage)
    requires '\n' !in m.content
    ensures '\n' !in HistoryLine(m)
  {
    var head := (if m.role == "user" then "User" else "Assistant") + ": ";
    var line := head + m.content;
    assert HistoryLine(m) == line;
    forall i | 0 <= i < |line| ensures line[i] != '\n' {
      if i < |head| {
        assert line[i] == head[i];
      } else {
        assert line[i] == m.content[i - |head|];
      }
    }
  }

  /** What the handler answers. */
  datatype Response =
    | Unauthorized                                // status 401
    | ServerError                                 // status 500, an exception was caught
    | Reply(content: string, action: Option<string>)

  /** The `chat_messages` table. */
  class ChatLog {
    var messages: seq<ChatMessage>

    constructor (messages: seq<ChatMessage>)
      ensures this.messages == messages
    {
      this.messages := messages;
    }

    /** An insert whose write fails (`error`) stores nothing; the route never reads that error. */
    method Insert(m: ChatMessage, error: Option<string>)
      modifies this
      ensures messages == old(messages) + Stored(m, error)
    {
      if error.None? {
        messages := messages + [m];
      }
    }
  }

  /** What an insert of `m` adds to the log: `m` itself, or nothing when the write fails. */
  function Stored(m: ChatMessage, error: Option<string>): (r: seq<ChatMessage>)
    ensures error.None? ==> r == [m]
    ensures error.Some? ==> r == []
  {
    if error.None? then [m] else []
  }

  /**
   * `POST(request)` with the body's `message`. `session` is the signed-in
   * user's id, if any; `model` answers a prompt (None: the call threw);
   * `parse` is `JSON.parse` on the extracted text; `userLogError` and
   * `replyLogError` are the failures of the two `chat_messages` inserts,
   * which the route does not look at; the remaining parameters are those of
   * the dispatcher.
   */
  method Post(
    db: NotesTable, log: ChatLog, session: Option<string>, message: string, system: string,
    model: string -> Option<string>, parse: string -> Option<Action>,
    now: string, created: string, newId: string, storeError: Option<string>,
    userLogError: Option<string>, replyLogError: Option<string>)
    returns (resp: Response)
    modifies db, log
    // No session: 401, and neither table is touched.
    ensures session.None? ==> resp == Unauthorized && db.rows == old(db.rows) && log.messages == old(log.messages)
    ensures session.Some? ==> OthersUntouched(old(db.rows), db.rows, session.value)
    // The model fails: the user's message is already stored (if its insert
    // succeeded), nothing else is.
    ensures session.Some? && model(Prompt(system, old(log.messages), message)).None? ==>
      resp == ServerError && db.rows == old(db.rows) && log.messages == old(log.messages) + Stored(UserMessage(message), userLogError)
    // Otherwise the user's message and then the final reply are stored, each
    // when its insert succeeds; the reply goes out either way.
    ensures session.Some? && model(Prompt(system, old(log.messages), message)).Some? ==>
      var text := model(Prompt(system, old(log.messages), message)).value;
      var act := ExtractAction(text, parse);
      && resp.Reply?
      && log.messages == old(log.messages) + Stored(UserMessage(message), userLogError) + Stored(AssistantMessage(resp.content), replyLogError)
      && resp.action == KindOf(act)
      && (KindOf(act).None? ==> resp.content == text && db.rows == old(db.rows))
    // The inline dispatcher's rules, as the route sees them.
    ensures session.Some? && model(Prompt(system, old(log.messages), message)).Some? ==>
      var act := ExtractAction(model(Prompt(system, old(log.messages), message)).value, parse);
      && (KindOf(act) == Some("create_note") && !ValidCreateTitle(CreateTitle(act.value)) ==>
            resp.content == InvalidTitleReply && db.rows == old(db.rows))
      && (KindOf(act) == Some("delete_note") && !Truthy(act.value.id) ==>
            resp.content == MissingIdReply("delete") && db.rows == old(db.rows))
      && (KindOf(act) == Some("delete_all_notes") && storeError.None? ==>
            resp.content == "All notes deleted." && db.rows == DeleteRowsOf(old(db.rows), session.value))
  {
    if session.None? {
      return Unauthorized;
    }
    var user := session.value;
    var prompt := Prompt(system, log.messages, message);
    log.Insert(UserMessage(message), userLogError);
    var reply := model(prompt);
    if reply.None? {
      return ServerError;
    }
    resp := Answer(db, log, user, reply.value, parse, now, created, newId, storeError, replyLogError);
  }

  /**
   * The route after the model has answered `text`: the action is extracted
   * and dispatched, the final message is stored as the assistant's unless
   * that insert fails, and the response carries it with the action kind.
   */
  method Answer(
    db: NotesTable, log: ChatLog, user: string, text: string, parse: string -> Option<Action>,
    now: string, created: string, newId: string, storeError: Option<string>, replyLogError: Option<string>)
    returns (resp: Response)
    modifies db, log
    ensures OthersUntouched(old(db.rows), db.rows, user)
    ensures var act := ExtractAction(text, parse);
      && resp.Reply?
      && log.messages == old(log.messages) + Stored(AssistantMessage(resp.content), replyLogError)
      && resp.action == KindOf(act)
      && (KindOf(act).None? ==> resp.content == text && db.rows == old(db.rows))
      && (KindOf(act) == Some("create_note") && !ValidCreateTitle(CreateTitle(act.value)) ==>
            resp.content == InvalidTitleReply && db.rows == old(db.rows))
      && (KindOf(act) == Some("delete_note") && !Truthy(act.value.id) ==>
            resp.content == MissingIdReply("delete") && db.rows == old(db.rows))
      && (KindOf(act) == Some("delete_all_notes") && storeError.None? ==>
            resp.content == "All notes deleted." && db.rows == DeleteRowsOf(old(db.rows), user))
  {
    var actionObj := ExtractAction(text, parse);
    var finalMessage, actionResult := HandleNoteAction(db, user, actionObj, Some(text), now, created, newId, storeError);
    var content := finalMessage.GetOr(text);
    log.Insert(AssistantMessage(content), replyLogError);
    resp := Reply(content, actionResult);
  }
}
