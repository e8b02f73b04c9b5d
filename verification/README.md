# keep-ai, modelled in Dafny

keep-ai is a note-taking web application with a chat assistant. A signed-in
user keeps notes (title, content, completed flag, timestamps). They can edit
the notes directly in the browser or ask the assistant in plain language to
create, update, delete, complete, search or clear them.

The chat route works in these steps:
- it builds a prompt from the stored chat history;
- it sends the prompt to a hosted language model;
- it pulls a JSON action object out of the reply;
- it runs that action against the user's rows of the `notes` table;
- it stores both sides of the exchange in `chat_messages`.

In the browser, a Redux slice holds the notes list. Thunks update that list
optimistically and roll it back when the server call fails. A hook keeps the
chat panel's message list as the reply streams in.

This project models that logic and proves what it guarantees.

The chat route carries its own copy of the dispatcher
(src/app/api/chat/route.js:98-210). That copy runs the same branches, with the
same messages, as `handleNoteAction` in src/supabase/notesActions.js. The only
difference is the no-action case, where `handleNoteAction` falls back to "".
The route calls the dispatcher only once the model has produced a text, so the
fallback never applies. The model therefore defines the dispatcher once, as
`NotesActions.HandleNoteAction`, and `ChatRoute.Answer` runs it for `ChatRoute.Post`.
- **The chat-command dispatcher** (`notes_actions.dfy`). `handleNoteAction`
  runs over a notes table class. The table's writes are scoped by the row's
  owner.
- **The chat route** (`chat_route.dfy`, `chat.dfy`). This covers action-span
  extraction, history and prompt formatting, and the order in which `POST`
  records messages.
- **The client store** (`records.dfy`, `note_slice.dfy`). Its reducers are
  methods of a state class. Browser objects are maps from field name to value.
  Object spread is map union.
- **The note thunks** (`note_handlers.dfy`). Each covers the optimistic write,
  the remote outcome, the compensation and the loader flags.
- **The daily AI quota** (`ai_usage.dfy`).
- **The chat hook** (`chat_logic.dfy`). This covers the blank-input guard, the
  streamed-reply loop, the refresh decision and the rollback.
- **The small pure parts:**
  - the title schema (`note_form.dfy`);
  - the close-or-submit predicate (`new_note.dfy`);
  - the middleware (`middleware.dfy`);
  - the home page's filter and stable sort (`home.dfy`);
  - the chat bubble's layout (`message_bubble.dfy`).
- **Shared JavaScript string operations** (`text.dfy`, `seqs.dfy`). These are
  `trim`, `\s`, `toLowerCase`, `includes`, `split`, `join` and `filter`.

Some inputs come from outside the program. The model passes each one in as a
parameter:
- the database's answers and failures (`storeError`, `fault`, `remoteFails`,
  `userLogError`, `replyLogError`, the fetched data);
- the language model (`string -> Option<string>`);
- `JSON.parse` (`string -> Option<...>`);
- clocks (`now`, and `created` for the separate read that stamps a new
  row's creation time);
- generated ids (`newId`);
- the response of `fetch`.

What the code does, and the model with it:
- Notes are matched by id only.
- Deletes are hard deletes.
- `delete_all_notes` asks for no confirmation.
- `actionResult` echoes the action string even when validation or the store
  failed.
- `update_note` does not check the title.
- The restore kinds appear only in the chat hook's refresh list; no handler
  acts on them.

## Model

| member | source | states |
|---|---|---|
| NotesActions.KindOf | src/supabase/notesActions.js:7-12 | the action kind is present exactly when there is an action object with a truthy `action` field, and it is then that string |
| NotesActions.CreateTitleRule | src/supabase/notesActions.js:15-16 | a create title is accepted exactly when the trimmed title has 1 to 50 characters; it trims to empty exactly when it is all white space |
| NotesActions.NewNote | src/supabase/notesActions.js:19-26 | the inserted row has the database's id, belongs to the session user, has the trimmed title, the action's content when truthy and "" otherwise, is not completed, and takes `lastModified` and `created_at` from two separate clock reads |
| NotesActions.EditPatch | src/supabase/notesActions.js:38-42 | update_note writes the title and content only when they are truthy, never `completed`, and always the new `lastModified` |
| NotesActions.Patched | src/supabase/notesActions.js:36-44 | an updated row keeps its id, owner and creation time and takes the new `lastModified` |
| NotesActions.UpdateRowsAt | src/supabase/notesActions.js:36-44 | an update patches exactly the rows with the given id and the session user as owner; every row keeps its id and owner |
| NotesActions.UpdateKeepsOthers | src/supabase/notesActions.js:43-44 | an update leaves every other user's rows unchanged and in order |
| NotesActions.UpdateTwice | src/supabase/notesActions.js:36-44 | two updates of a row are one update in which the later values win |
| NotesActions.CompletionIdempotent | src/supabase/notesActions.js:64-93 | completing (or uncompleting) a note twice leaves the rows as one completion stamped with the later time |
| NotesActions.DeleteRows | src/supabase/notesActions.js:54-58 | delete_note keeps exactly the rows that do not have both the given id and the session user as owner |
| NotesActions.DeleteKeepsOthers | src/supabase/notesActions.js:54-58 | deleting a note leaves every other user's rows unchanged and in order |
| NotesActions.DeleteRowsOf | src/supabase/notesActions.js:114-118 | delete_all_notes keeps exactly the rows of other users |
| NotesActions.DeleteAllScoped | src/supabase/notesActions.js:114-118 | after delete_all_notes the user owns no rows and every other user's rows are unchanged and in order |
| NotesActions.InsertKeepsOthers | src/supabase/notesActions.js:19-26 | inserting the user's note leaves every other user's rows unchanged |
| NotesActions.SearchRows | src/supabase/notesActions.js:99-103 | the search finds exactly the user's notes whose title contains the query, ignoring case |
| NotesActions.SearchReplyLines | src/supabase/notesActions.js:106-111 | a non-empty search reply reads back, line by line, as "Found notes:" and one "- title: content" line per found note |
| NotesActions.NotesTable.constructor | src/supabase/notesActions.js:1-6 | the table starts with the given rows |
| NotesActions.NotesTable.Insert | src/supabase/notesActions.js:19-26 | an insert appends the row, or on a store error reports it and writes nothing |
| NotesActions.NotesTable.Update | src/supabase/notesActions.js:36-44 | an update applies the owner-scoped patch, or on a store error reports it and writes nothing |
| NotesActions.NotesTable.Delete | src/supabase/notesActions.js:54-58 | a delete removes the owner-scoped row, or on a store error reports it and writes nothing |
| NotesActions.NotesTable.DeleteAllOf | src/supabase/notesActions.js:114-118 | a delete-all removes the user's rows, or on a store error reports it and writes nothing |
| NotesActions.NotesTable.Search | src/supabase/notesActions.js:99-103 | a search changes nothing and returns exactly the user's matching rows, or nothing on a store error |
| NotesActions.HandleNoteAction | src/supabase/notesActions.js:1-125 | see the list of properties below this table |
| ChatRoute.ActionSpan | src/app/api/chat/route.js:92-93 | a span exists exactly when some '{' precedes some '}'; it runs from the first '{' to the last '}', with no '{' before it and no '}' after it |
| ChatRoute.PlainReplyParsedWhole | src/app/api/chat/route.js:93 | a reply without a brace pair is parsed whole |
| ChatRoute.HistoryLines | src/app/api/chat/route.js:51-54 | one history line per stored message, in stored order |
| ChatRoute.HistoryReadsBack | src/app/api/chat/route.js:51-55 | split on line breaks, the history gives back each message in order, as "User: ..." for role "user" and "Assistant: ..." for any other role, when no message holds a line break |
| ChatRoute.Prompt | src/app/api/chat/route.js:57 | the prompt starts with the system text and a line break, ends with "\nUser: <message>\nAssistant:", and holds the history in between |
| ChatRoute.ChatLog.Insert | src/app/api/chat/route.js:59-62 | a message is appended to the chat log when the write succeeds; a failed write stores nothing |
| ChatRoute.ChatLog.constructor | src/app/api/chat/route.js:46-49 | the log starts with the stored messages |
| ChatRoute.Post | src/app/api/chat/route.js:6-228 | without a session: 401 and nothing stored; the user's message is stored before the model call unless its insert fails, and the route carries on either way; if the model call fails: 500 and nothing but that message is stored; otherwise it is followed by one assistant message holding the final reply, absent only when that insert fails, and the reply is sent either way; with no action the reply is the model text and nothing is written; the action kind is echoed; invalid create titles, missing delete ids and owner-scoped delete-all act as in the dispatcher; other users' notes are untouched |
| ChatRoute.Answer | src/app/api/chat/route.js:85-217 | one assistant message holding the reply is stored, or none when that insert fails, and the reply is sent either way; with no action the reply is the model text and nothing is written; the action kind is echoed; invalid create titles, missing delete ids and owner-scoped delete-all act as in the dispatcher; other users' notes are untouched |
| NoteSlice.FindIndex | src/store/noteSlice.js:26 | the result is the first index whose entry has the id, or none when no entry has it |
| NoteSlice.Merged | src/store/noteSlice.js:24-28 | the first entry with the payload's id gets the payload's fields over its own; every other entry and the length are unchanged; an unknown id changes nothing |
| NoteSlice.MergedSelection | src/store/noteSlice.js:29-31 | the selection becomes the merged entry only when it has the payload's id and that id is in the list; otherwise it is unchanged |
| NoteSlice.Removed | src/store/noteSlice.js:34-39 | only the first entry with the id is cut out and the rest keep their order; an unknown id changes nothing |
| NoteSlice.RemoveUndoesAppend | src/store/noteSlice.js:21-39 | appending a note whose id the list lacks and then deleting that id gives back the list |
| NoteSlice.MergeKeepsIds | src/store/noteSlice.js:28 | an update never changes an entry's id |
| NoteSlice.ReapplyRestores | src/store/noteSlice.js:24-33 | re-applying the entry that an update replaced restores the list, when the update set no new field |
| NoteSlice.UpdateUnknownIdNoop | src/store/noteSlice.js:26-27 | an update with an id not in the list changes neither the list nor the selection |
| NoteSlice.NoteState.constructor | src/store/noteSlice.js:3-9 | the initial state has no notes, no selection, both loaders off and no user |
| NoteSlice.NoteState.SetNotes | src/store/noteSlice.js:15-17 | the list becomes the payload; nothing else changes |
| NoteSlice.NoteState.SelectNote | src/store/noteSlice.js:18-20 | the selection becomes the payload; nothing else changes |
| NoteSlice.NoteState.AddNote | src/store/noteSlice.js:21-23 | the payload is appended; nothing else changes |
| NoteSlice.NoteState.UpdateNote | src/store/noteSlice.js:24-33 | the list and the selection become Merged and MergedSelection; the flags and user are unchanged |
| NoteSlice.NoteState.DeleteNote | src/store/noteSlice.js:34-40 | the list becomes Removed; nothing else changes |
| NoteSlice.NoteState.SetNavBarLoader | src/store/noteSlice.js:41-43 | only the navigation-bar loader changes |
| NoteSlice.NoteState.SetNotesLoader | src/store/noteSlice.js:44-46 | only the notes loader changes |
| NoteSlice.NoteState.SetUser | src/store/noteSlice.js:47-49 | only the user changes |
| NoteHandlers.Stamped | src/handlers/noteHandlers.js:17-21 | the added note is the new note with both timestamps set and its id and other fields kept |
| NoteHandlers.Flipped | src/handlers/noteHandlers.js:63-67 | the completed note has `completed` negated, `lastModified` set, and every other field kept |
| NoteHandlers.Edited | src/handlers/noteHandlers.js:95-98 | the dispatched edit is the edit with `lastModified` as a string and its other fields kept |
| NoteHandlers.ModalToggle.Toggle | src/components/Home/Home.jsx:117-119 | the modal's visibility flips |
| NoteHandlers.HandleAddNote | src/handlers/noteHandlers.js:13-35 | the note is shown before the call; on failure it is removed by id and the error rethrown; with a fresh id the list returns to its prior contents; the loader ends off |
| NoteHandlers.HandleFetchNotes | src/handlers/noteHandlers.js:36-48 | the list becomes the server data on success and is unchanged on failure; the given loader ends off and the other flag is unchanged |
| NoteHandlers.HandleDeleteNote | src/handlers/noteHandlers.js:49-61 | the note is removed before the call and never restored; the loader ends off |
| NoteHandlers.HandleCompleteNote | src/handlers/noteHandlers.js:62-86 | the flipped note is shown during the call; on failure the original note is re-applied, which restores the list when it was the stored entry; the loader ends off |
| NoteHandlers.HandleUpdateNote | src/handlers/noteHandlers.js:87-118 | the edit is shown and the modal toggled once before the call; on failure the selected note is re-applied, which restores the list when it was the stored entry; the loader ends off |
| AiUsage.Lookup | src/supabase/aiUsage.js:8-13 | the lookup yields the row exactly when one row matches user and day; otherwise "PGRST116"; a store failure yields its error |
| AiUsage.CheckUserLimits | src/supabase/aiUsage.js:14-31 | a blocking store error refuses first, then the message limit, then the token limit; allowed exactly when there is no blocking error and either no row or both counts below their limits |
| AiUsage.UsageTable.CheckLimits | src/supabase/aiUsage.js:1-32 | changes nothing; without a store failure the check is allowed exactly when the user has not exactly one row that day, or that row's counts are below both limits |
| AiUsage.SetCounts | src/supabase/aiUsage.js:42-48 | every row with the id gets the new counts; the others are unchanged |
| AiUsage.UsageTable.IncrementUserUsage | src/supabase/aiUsage.js:34-57 | the table becomes `Incremented` of the old one: a found row gets one more message and `tokens` more tokens, by id; without a found row one row (user, day, 1, tokens) is inserted |
| AiUsage.IncrementedShape | src/supabase/aiUsage.js:41-56 | without a found row the table grows by exactly that row at the end; with one, the table keeps its length and only rows carrying the found id change, to the new counts |
| AiUsage.IncrementTotals | src/supabase/aiUsage.js:41-56 | with distinct row ids, an increment adds exactly 1 message and `tokens` tokens to the user's totals for the day |
| AiUsage.DuplicateRowBypassesLimit | src/supabase/aiUsage.js:35-56 | see Findings |
| AiUsage.IncrementCheckedKeepsOneRow | src/supabase/aiUsage.js:41-56 | see Findings |
| ChatLogic.SearchOnlyNeverRefreshes | src/hooks/useChatLogic.js:101-114 | a stream whose replies only ever parse to searches or to no action never calls the refresh |
| ChatLogic.DropLast | src/hooks/useChatLogic.js:119 | the last message, whichever it is, is removed |
| ChatLogic.ChatSession.constructor | src/hooks/useChatLogic.js:7-10 | the hook starts with no messages, empty input and no loading |
| ChatLogic.ChatSession.FetchMessages | src/hooks/useChatLogic.js:21-31 | the stored conversation replaces the list on success; the list is unchanged on failure; the fetching flag ends off |
| ChatLogic.ChatSession.ReadStream | src/hooks/useChatLogic.js:68-115 | a non-empty stream adds one assistant message after the user's, showing the parsed content of the whole buffer, or the raw buffer when it does not parse; an empty stream adds nothing; with a refresh callback, one refresh per successive buffer whose action is a refresh kind |
| ChatLogic.ChatSession.Respond | src/hooks/useChatLogic.js:52-119 | with the user's message last, the shown list becomes `AfterResponse` of it: a thrown request drops the last message; an error status drops it unless it reads as the daily limit; a stream appends the reply, and a read that throws drops the last message; refreshes move only with a stream; input, loading and fetching are untouched |
| ChatLogic.SendOutcomes | src/hooks/useChatLogic.js:52-119 | after the user's message `m` is appended to `base`: a thrown request or a non-limit error leaves exactly `base`; a limit error leaves `base + [m]`; a stream with chunks and a clean read leaves `base + [m, reply]` with the reply's shown text; a stream whose read throws leaves `base + [m]`, or `base` when no chunk arrived |
| ChatLogic.ChatSession.HandleSend | src/hooks/useChatLogic.js:33-34 | a message is sent exactly when the trimmed input is not blank; blank input changes nothing; a sent message ends as in `Send` with the trimmed input |
| ChatLogic.ChatSession.Send | src/hooks/useChatLogic.js:36-122 | the input is cleared, the message is appended and the list then ends as `AfterResponse` of it (see `SendOutcomes`); loading ends false; the refresh count grows only with a stream |
| NoteForm.TitleErrors | src/schemas/NoteForm.validations.js:3-11 | no errors exactly when the title has 1 to 50 characters and is not all white space (no trimming); missing or empty gives only "Title is required."; the too-long and only-spaces messages appear exactly when those checks fail |
| NoteForm.FormTitleAcceptedByChat | src/schemas/NoteForm.validations.js:3-11 | a title the form accepts is also accepted by the chat's create action once trimmed |
| NoteForm.ChatAcceptsWhatFormRejects | src/schemas/NoteForm.validations.js:7 | a 51-character title with a leading space is refused by the form but accepted by the chat |
| NewNoteContainer.ShouldClose | src/utils/shouldCloseNewNoteContainer.js:3-16 | never when inactive; always when active and not dirty; when active and dirty, exactly when neither field has text and not both are nil |
| Middleware.AnyPrefix | src/middleware.js:8 | true exactly when one of the routes is a prefix of the path |
| Middleware.IsProtectedRoute | src/middleware.js:5-9 | a path is protected exactly when it starts with "/chat" or "/api" |
| Middleware.PrefixExamples | src/middleware.js:7-9 | "/apiary" and "/chat/1" are protected; "/" and "/ch" are not |
| Middleware.Decide | src/middleware.js:26-34 | redirect (always to "/") exactly when the lookup succeeded with no session and the path is protected; a failed lookup passes through |
| Home.FilteredNotes | src/components/Home/Home.jsx:101-103 | keeps exactly the titled notes whose lower-cased title contains the lower-cased term; an empty term keeps every titled note |
| Home.FilteredNotesConcat | src/components/Home/Home.jsx:101-103 | the filter of a concatenation is the concatenation of the filters, so the kept notes stay in list order with every copy |
| Home.FilteredNote | src/components/Home/Home.jsx:101-103 | a single note is kept exactly when it is titled and matches the term |
| Home.InsertByKey | src/components/Home/Home.jsx:104 | insertion into a descending list keeps it descending |
| Home.InsertPermutes | src/components/Home/Home.jsx:104 | insertion adds exactly the one element |
| Home.SortByKey | src/components/Home/Home.jsx:104 | the sorted copy has the same length and is in descending key order |
| Home.SortPermutes | src/components/Home/Home.jsx:104 | the sorted copy is a permutation of the filtered list |
| Home.SortStable | src/components/Home/Home.jsx:104 | notes with equal keys keep their relative order |
| Home.SortedNotes | src/components/Home/Home.jsx:104-115 | a permutation of the filtered list: completed before uncompleted for "completed"; by `lastModified` descending for "modified"; by `created_at` descending for "created", "" or any other value; by ascending title rank for "title" |
| Home.CompletedRecord | src/components/Home/Home.jsx:128-133 | the record flips only `completed`, besides `lastModified` |
| Home.UpdatedRecord | src/components/Home/Home.jsx:71-76 | the record carries the selected note's `completed` (undefined without one), the new `lastModified` and the form values |
| MessageBubble.LeadingDigits | src/components/Chat/ChatMessageBubble.jsx:19 | the count of leading digits: all of them are digits and the next character is not |
| MessageBubble.Classify | src/components/Chat/ChatMessageBubble.jsx:17-40 | a line is a list item exactly when it starts with digits and a full stop (checked first), otherwise a bullet exactly when it starts with "-"; a plain line is followed by a break unless it is the last; the text is the line |
| MessageBubble.FormatSection | src/components/Chat/ChatMessageBubble.jsx:13-41 | one classified line per piece of the section split on "\n", in order; a plain line has a break exactly when it is not the section's last |
| MessageBubble.FormatContent | src/components/Chat/ChatMessageBubble.jsx:5-45 | empty content renders nothing; otherwise one section per piece split on "\n\n", in order |
| MessageBubble.RenderedRebuildsContent | src/components/Chat/ChatMessageBubble.jsx:9-17 | joining the lines of each section with "\n" and the sections with "\n\n" gives back the content: every line is shown once, in order |

`NotesActions.HandleNoteAction` proves these properties:
- `actionResult` is the action kind whenever there is one. That includes a
  validation failure, a store failure and an unknown kind.
- With no action, the message is the model text, or "" when there is none.
- The create title is trimmed. A title outside 1 to 50 characters gets
  "Cannot create note: Invalid title." and nothing is written.
- A valid create inserts exactly one row. The reply is the created message, or
  the failure message.
- update, delete, complete and uncomplete without an id reply "Cannot <verb>
  note: Missing id." and write nothing.
- search replies as described for `SearchRows` and `SearchReplyLines`. A
  missing query gets its own message.
- An unknown kind keeps the model text.
- Each store error gives its "Failed to ..." message and writes nothing.
- Every other user's notes are unchanged and in order.

## Left out

- Supabase, the Vertex AI client, axios and `fetch`, toasts and the Next.js
  request and response objects are I/O. The model passes their results in as
  parameters.
- The notes, `chat_messages` and `ai_usage` tables are sequences of rows. Row
  order is insertion order.
- `new Date().toISOString()` and generated ids are opaque parameters.
- `JSON.parse` and `JSON.stringify` are not modelled.
  - Parsing is a function to an optional action record, or an optional reply
    record.
  - Action fields are optional strings. A number or another JSON type in a
    field is not modelled.
  - A parse that yields a non-object, and a reply without `content`, are not
    modelled.
- The system text (src/app/api/chat/route.js:18-44) is a parameter. It embeds
  the user's notes through `JSON.stringify`. src/supabase/prompt.js is not part
  of this model.
- The `GET` handler of the chat route (src/app/api/chat/route.js:230-246) is a
  plain read of the chat log and is not modelled.
- In the route, failures of `request.json()` and of credential decoding are
  left out. The only failure modelled is the model call's, which gives
  `ServerError`.
- `toLowerCase` folds ASCII letters only.
- `ilike` is modelled as a literal case-insensitive substring test, for these
  reasons:
  - the `%` and `_` wildcards inside a query are not interpreted;
  - case folding beyond ASCII is not modelled.
- String lengths count Dafny characters, not UTF-16 code units.
- `TextDecoder` decodes each chunk on its own. A character split across chunks
  is not modelled: chunks arrive as decoded strings.
- `localeCompare` is an integer rank oracle `titleRank`, and `new Date(x)` is
  an integer oracle `dateOf`. Invalid dates (`NaN`) are not modelled.
- The "completed" comparator is modelled by truthiness. The source's
  comparator is inconsistent when non-boolean values are mixed, for example
  `undefined` beside `false`.
- A note title that is neither a string nor missing is dropped by
  `Home.FilteredNotes`, where the source would throw.
- Scrolling, React's batching of state updates and the in-place mutation of the
  previous state's last message object (`lastMessage.content =`) are not
  modelled. The model replaces the last message instead.
- These call sites are not modelled; each handler follows its own signature:
  - src/components/Home/Home.jsx:57 passes four arguments to
    `handleFetchNotes`;
  - src/components/Home/Home.jsx:78 and src/components/Home/Home.jsx:134 pass two arguments to the
    three-parameter `handleUpdateNote`;
  - the `setUserLoader` export of src/store/noteSlice.js:62 is undefined.
- `handleLogout` and the other components are rendering and plumbing. So are
  the root middleware.js, the middleware matcher configuration,
  src/app/api/notes/route.js, src/CreateSupabase.js,
  src/supabase/vertexClient.js and src/utils/getFormattedDate.js.
- Concurrency is not modelled. Each handler and thunk runs to completion
  alone; interleaved thunks and races between two quota increments are out of
  scope.
- `incrementUserUsage` ignores the result of its update or insert. The model
  assumes those writes succeed.
- Message and token counts are unbounded integers. JavaScript numbers are
  doubles.
- `NoteForm.TitleErrors`: yup's coercion of a non-string or `null` title is not
  modelled; a missing title is `None`.
- `ChatRoute.Post`: its contract restates only the dispatcher rules listed in
  its row. The other per-kind replies hold because it runs `ChatRoute.Answer`.
- `ChatRoute.Answer`: its contract restates only the dispatcher rules listed in
  its row. The other per-kind replies hold because it runs
  `NotesActions.HandleNoteAction`, whose contract states them.

## Findings

| source | as written | input that shows it | evidently intended | confidence | as-written member | corrected member |
|---|---|---|---|---|---|---|
| src/supabase/aiUsage.js:35-56 | `incrementUserUsage` treats any failed lookup, not only "no row", as a missing row and inserts a second row for the same user and day. `.single()` then answers "PGRST116" for that day, and `checkUserLimits` reads "PGRST116" as no usage, so the day's limits no longer apply. | A user already at the message limit (row `{id 1, u, d, 5 messages}`, limit 5), a lookup that fails with a connection error during one increment, then a limit check | keep one row per user and day: insert only when the lookup found no row, and write nothing when it failed | medium, not executed | AiUsage.DuplicateRowBypassesLimit (on AiUsage.Incremented) | AiUsage.IncrementCheckedKeepsOneRow (on AiUsage.IncrementedChecked) |
