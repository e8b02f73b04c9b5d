/**
 * The chat-command dispatcher `handleNoteAction` of src/supabase/notesActions.js:
 * it validates an action object decoded from the model's reply, applies it to
 * the `notes` table on behalf of the signed-in user and composes the reply.
 *
 * The table is a sequence of rows owned by a `NotesTable` object. Every store
 * call takes the error the store reports for it (`storeError`), so a failing
 * store is an input; a failed call leaves the table as it was. Row ids and
 * timestamps that the database or the clock would supply are parameters too.
 */
module NotesActions {
  import opened Wrappers
  import opened Text
  import opened Seqs

  /** A row of the `notes` table. */
  datatype Note = Note(
    id: string,
    userId: string,
    title: string,
    content: string,
    completed: bool,
    lastModified: string,
    createdAt: string)

  /**
   * The action object decoded from the model's reply. A field is None when the
   * object does not have it or it is `null`.
   */
  datatype Action = Action(
    action: Option<string>,
    title: Option<string>,
    content: Option<string>,
    id: Option<string>,
    query: Option<string>)

  /** JavaScript truthiness of an optional string field: present and not "". */
  predicate Truthy(v: Option<string>)
  {
    v.Some? && v.value != ""
  }

  /** `actionObj.action` when the object exists and that field is truthy; None otherwise. */
  function KindOf(actionObj: Option<Action>): (k: Option<string>)
    ensures k.Some? <==> actionObj.Some? && Truthy(actionObj.value.action)
    ensures k.Some? ==> k.value != "" && k == actionObj.value.action
  {
    if actionObj.Some? && Truthy(actionObj.value.action) then actionObj.value.action else None
  }

  const MaxTitleLength: nat := 50

  /** The title `create_note` stores: `(actionObj.title || "").trim()`. */
  function CreateTitle(a: Action): string
  {
    Trim(a.title.GetOr(""))
  }

  /**
   * The create_note title check passes: not `!title || title.length > 50 || /^\s+$/.test(title)`.
   * On a trimmed title the white-space test can never fire, so only the length matters.
   */
  predicate ValidCreateTitle(title: string)
  {
    title != "" && |title| <= MaxTitleLength && !AllWhitespace(title)
  }

  /** A title accepted for create_note is the trimmed title, between 1 and 50 characters. */
  lemma CreateTitleRule(a: Action)
    ensures ValidCreateTitle(CreateTitle(a)) <==> 1 <= |CreateTitle(a)| <= MaxTitleLength
    ensures CreateTitle(a) == "" <==> forall i :: 0 <= i < |a.title.GetOr("")| ==> IsWhitespace(a.title.GetOr("")[i])
  {
  }

  /** The row `.eq("id", id).eq("user_id", user)` picks. */
  predicate Selects(n: Note, id: string, user: string)
  {
    n.id == id && n.userId == user
  }

  /** The columns an update writes; a None column is left as it is (`undefined` in the update object). */
  datatype Patch = Patch(
    title: Option<string>,
    content: Option<string>,
    completed: Option<bool>,
    lastModified: string)

  /** One row after an update. */
  function Patched(n: Note, p: Patch): (r: Note)
    ensures r.id == n.id && r.userId == n.userId && r.createdAt == n.createdAt
    ensures r.lastModified == p.lastModified
  {
    n.(title := p.title.GetOr(n.title),
       content := p.content.GetOr(n.content),
       completed := p.completed.GetOr(n.completed),
       lastModified := p.lastModified)
  }

  /** `update(p).eq("id", id).eq("user_id", user)`: every selected row is patched, the others are kept. */
  function UpdateRows(rows: seq<Note>, id: string, user: string, p: Patch): (r: seq<Note>)
    ensures |r| == |rows|
  {
    if |rows| == 0 then []
    else [if Selects(rows[0], id, user) then Patched(rows[0], p) else rows[0]] + UpdateRows(rows[1..], id, user, p)
  }

  /** `delete().eq("id", id).eq("user_id", user)`: the rows kept are those not selected. */
  function DeleteRows(rows: seq<Note>, id: string, user: string): (r: seq<Note>)
    ensures forall n :: n in r <==> n in rows && !Selects(n, id, user)
  {
    Filter(rows, (n: Note) => !Selects(n, id, user))
  }

  /** `delete().eq("user_id", user)`: the rows kept are those of other users. */
  function DeleteRowsOf(rows: seq<Note>, user: string): (r: seq<Note>)
    ensures forall n :: n in r <==> n in rows && n.userId != user
  {
    Filter(rows, (n: Note) => n.userId != user)
  }

  /** The rows of one user, in table order. */
  function OwnedBy(rows: seq<Note>, user: string): (r: seq<Note>)
    ensures forall n :: n in r <==> n in rows && n.userId == user
  {
    Filter(rows, (n: Note) => n.userId == user)
  }

  /** `select("*").ilike("title", "%query%").eq("user_id", user)`. */
  function SearchRows(rows: seq<Note>, user: string, query: string): (r: seq<Note>)
    ensures forall n :: n in r <==> n in rows && n.userId == user && ContainsIgnoringCase(n.title, query)
    ensures forall i :: 0 <= i < |r| ==> r[i].userId == user
  {
    Filter(rows, (n: Note) => n.userId == user && ContainsIgnoringCase(n.title, query))
  }

  /** The line a found note contributes to the search reply. */
  function FoundLine(n: Note): string
  {
    "- " + n.title + ": " + n.content
  }

  function FoundLines(found: seq<Note>): (r: seq<string>)
    ensures |r| == |found|
    ensures forall i :: 0 <= i < |found| ==> r[i] == FoundLine(found[i])
  {
    if |found| == 0 then [] else [FoundLine(found[0])] + FoundLines(found[1..])
  }

  /** The reply to a search that succeeded. */
  function SearchReply(found: seq<Note>, query: string): string
  {
    if |found| == 0 then "No notes found containing \"" + query + "\"."
    else "Found notes:\n" + Join(FoundLines(found), "\n")
  }

  // Replies.

  const InvalidTitleReply := "Cannot create note: Invalid title."
  const MissingQueryReply := "Cannot search notes: Missing query."

  function MissingIdReply(verb: string): string
  {
    "Cannot " + verb + " note: Missing id."
  }

  function CreatedReply(title: string): string
  {
    "Note created with title \"" + title + "\"."
  }

  /**
   * The row a valid create_note inserts: `id` is the id the database gives
   * it, `modified` and `created` the two separate clock reads.
   */
  function NewNote(a: Action, id: string, user: string, modified: string, created: string): (n: Note)
    ensures n.id == id && n.userId == user && n.title == CreateTitle(a) && !n.completed
    // The content is the action's when truthy, and "" otherwise.
    ensures Truthy(a.content) ==> n.content == a.content.value
    ensures !Truthy(a.content) ==> n.content == ""
    ensures n.lastModified == modified && n.createdAt == created
  {
    Note(id, user, CreateTitle(a), a.content.GetOr(""), false, modified, created)
  }

  /** The update object of update_note: title and content only when truthy. */
  function EditPatch(a: Action, now: string): (p: Patch)
    ensures p.title.Some? <==> Truthy(a.title)
    ensures p.content.Some? <==> Truthy(a.content)
    ensures p.title.Some? ==> p.title == a.title
    ensures p.content.Some? ==> p.content == a.content
    ensures p.completed.None? && p.lastModified == now
  {
    Patch(if Truthy(a.title) then a.title else None,
          if Truthy(a.content) then a.content else None,
          None, now)
  }

  function CompletionPatch(done: bool, now: string): Patch
  {
    Patch(None, None, Some(done), now)
  }

  // Properties of the table operations.

  /** An update never touches another user's rows. */
  lemma {:induction false} UpdateKeepsOthers(rows: seq<Note>, id: string, user: string, p: Patch, other: string)
    requires other != user
    ensures OwnedBy(UpdateRows(rows, id, user, p), other) == OwnedBy(rows, other)
  {
    if |rows| > 0 {
      var r := UpdateRows(rows, id, user, p);
      UpdateKeepsOthers(rows[1..], id, user, p, other);
      assert r == [r[0]] + UpdateRows(rows[1..], id, user, p);
      assert rows == [rows[0]] + rows[1..];
      FilterConcat([r[0]], UpdateRows(rows[1..], id, user, p), (n: Note) => n.userId == other);
      FilterConcat([rows[0]], rows[1..], (n: Note) => n.userId == other);
    }
  }

  /** An update changes exactly the selected rows and keeps every row's id and owner. */
  lemma {:induction false} UpdateRowsAt(rows: seq<Note>, id: string, user: string, p: Patch, i: nat)
    requires i < |rows|
    ensures UpdateRows(rows, id, user, p)[i] == if Selects(rows[i], id, user) then Patched(rows[i], p) else rows[i]
    ensures UpdateRows(rows, id, user, p)[i].id == rows[i].id
    ensures UpdateRows(rows, id, user, p)[i].userId == rows[i].userId
  {
    if i > 0 {
      UpdateRowsAt(rows[1..], id, user, p, i - 1);
    }
  }

  /** The later of two patches, written over the earlier. */
  function Then(p1: Patch, p2: Patch): Patch
  {
    Patch(if p2.title.Some? then p2.title else p1.title,
          if p2.content.Some? then p2.content else p1.content,
          if p2.completed.Some? then p2.completed else p1.completed,
          p2.lastModified)
  }

  /** Two updates of the same row are one update with the later values winning. */
  lemma {:induction false} UpdateTwice(rows: seq<Note>, id: string, user: string, p1: Patch, p2: Patch)
    ensures UpdateRows(UpdateRows(rows, id, user, p1), id, user, p2) == UpdateRows(rows, id, user, Then(p1, p2))
  {
    if |rows| > 0 {
      UpdateTwice(rows[1..], id, user, p1, p2);
      var once := UpdateRows(rows, id, user, p1);
      assert once[1..] == UpdateRows(rows[1..], id, user, p1);
    }
  }

  /**
   * Completing (or uncompleting) twice is completing once: the second call only
   * moves `lastModified`.
   */
  lemma CompletionIdempotent(rows: seq<Note>, id: string, user: string, done: bool, t1: string, t2: string)
    ensures UpdateRows(UpdateRows(rows, id, user, CompletionPatch(done, t1)), id, user, CompletionPatch(done, t2))
         == UpdateRows(rows, id, user, CompletionPatch(done, t2))
  {
    UpdateTwice(rows, id, user, CompletionPatch(done, t1), CompletionPatch(done, t2));
    assert Then(CompletionPatch(done, t1), CompletionPatch(done, t2)) == CompletionPatch(done, t2);
  }

  /** Deleting one row never touches another user's rows. */
  lemma DeleteKeepsOthers(rows: seq<Note>, id: string, user: string, other: string)
    requires other != user
    ensures OwnedBy(DeleteRows(rows, id, user), other) == OwnedBy(rows, other)
  {
    FilterAbsorb(rows, (n: Note) => !Selects(n, id, user), (n: Note) => n.userId == other);
  }

  /** delete_all_notes empties the user's notes and keeps every other user's notes, in order. */
  lemma DeleteAllScoped(rows: seq<Note>, user: string, other: string)
    requires other != user
    ensures OwnedBy(DeleteRowsOf(rows, user), user) == []
    ensures OwnedBy(DeleteRowsOf(rows, user), other) == OwnedBy(rows, other)
  {
    FilterKeepsNone(DeleteRowsOf(rows, user), (n: Note) => n.userId == user);
    FilterAbsorb(rows, (n: Note) => n.userId != user, (n: Note) => n.userId == other);
  }

  /** Inserting a row of `user` never touches another user's rows. */
  lemma InsertKeepsOthers(rows: seq<Note>, n: Note, other: string)
    requires n.userId != other
    ensures OwnedBy(rows + [n], other) == OwnedBy(rows, other)
  {
    FilterConcat(rows, [n], (m: Note) => m.userId == other);
    assert Filter([n], (m: Note) => m.userId == other) == [] + Filter([n][1..], (m: Note) => m.userId == other);
  }

  /**
   * A non-empty search reply reads back, line by line, as the header and one
   * "- title: content" line per found note, provided no title or content holds a line break.
   */
  lemma SearchReplyLines(found: seq<Note>, query: string)
    requires |found| > 0
    requires forall i :: 0 <= i < |found| ==> '\n' !in found[i].title && '\n' !in found[i].content
    ensures Split(SearchReply(found, query), "\n") == ["Found notes:"] + FoundLines(found)
  {
    ReplyLinesUnbroken(found);
    SplitReply(found, query);
  }

  lemma SplitReply(found: seq<Note>, query: string)
    requires |found| > 0
    requires forall k :: 0 <= k < |["Found notes:"] + FoundLines(found)| ==> '\n' !in (["Found notes:"] + FoundLines(found))[k]
    ensures Split(SearchReply(found, query), "\n") == ["Found notes:"] + FoundLines(found)
  {
    var lines := ["Found notes:"] + FoundLines(found);
    JoinCons("Found notes:", FoundLines(found), "\n");
    assert SearchReply(found, query) == Join(lines, "\n");
    assert ['\n'] == "\n";
    SplitJoin(lines, '\n');
  }

  lemma ReplyLinesUnbroken(found: seq<Note>)
    requires forall i :: 0 <= i < |found| ==> '\n' !in found[i].title && '\n' !in found[i].content
    ensures forall k :: 0 <= k < |["Found notes:"] + FoundLines(found)| ==> '\n' !in (["Found notes:"] + FoundLines(found))[k]
  {
    var body := FoundLines(found);
    var lines := ["Found notes:"] + body;
    forall k | 0 <= k < |lines| ensures '\n' !in lines[k] {
      if k > 0 {
        assert lines[k] == body[k - 1] == FoundLine(found[k - 1]);
        FoundLineUnbroken(found[k - 1]);
      }
    }
  }

  lemma FoundLineUnbroken(n: Note)
    requires '\n' !in n.title && '\n' !in n.content
    ensures '\n' !in FoundLine(n)
  {
  }

  /** The `notes` table, scoped by owner on every write. */
  class NotesTable {
    var rows: seq<Note>

    constructor (rows: seq<Note>)
      ensures this.rows == rows
    {
      this.rows := rows;
    }

    /** `insert(n)`; the store reports `error` and then writes nothing. */
    method Insert(n: Note, error: Option<string>) returns (err: Option<string>)
      modifies this
      ensures err == error
      ensures rows == if error.None? then old(rows) + [n] else old(rows)
    {
      err := error;
      if error.None? {
        rows := rows + [n];
      }
    }

    method Update(id: string, user: string, p: Patch, error: Option<string>) returns (err: Option<string>)
      modifies this
      ensures err == error
      ensures rows == if error.None? then UpdateRows(old(rows), id, user, p) else old(rows)
    {
      err := error;
      if error.None? {
        rows := UpdateRows(rows, id, user, p);
      }
    }

    method Delete(id: string, user: string, error: Option<string>) returns (err: Option<string>)
      modifies this
      ensures err == error
      ensures rows == if error.None? then DeleteRows(old(rows), id, user) else old(rows)
    {
      err := error;
      if error.None? {
        rows := DeleteRows(rows, id, user);
      }
    }

    method DeleteAllOf(user: string, error: Option<string>) returns (err: Option<string>)
      modifies this
      ensures err == error
      ensures rows == if error.None? then DeleteRowsOf(old(rows), user) else old(rows)
    {
      err := error;
      if error.None? {
        rows := DeleteRowsOf(rows, user);
      }
    }

    /** A read: the user's rows whose title contains `query`, ignoring case. */
    method Search(user: string, query: string, error: Option<string>) returns (found: seq<Note>, err: Option<string>)
      ensures err == error
      ensures error.None? ==> forall n :: n in found <==> n in rows && n.userId == user && ContainsIgnoringCase(n.title, query)
      ensures found == if error.None? then SearchRows(rows, user, query) else []
    {
      err := error;
      found := if error.None? then SearchRows(rows, user, query) else [];
    }
  }

  /**
   * `handleNoteAction(supabase, session, actionObj, aiMessage)`. `user` is
   * `session.user.id`; `now` stands for every `new Date().toISOString()`
   * that stamps `lastModified`, `created` for the separate read that stamps a
   * new row's `created_at`; `newId` is the id the database gives an inserted row; `storeError` is the
   * error the one store call of this action reports, if any.
   */
  method HandleNoteAction(
    db: NotesTable, user: string, actionObj: Option<Action>, aiMessage: Option<string>,
    now: string, created: string, newId: string, storeError: Option<string>)
    returns (finalMessage: Option<string>, actionResult: Option<string>)
    modifies db
    // The result echoes the action, whatever happened to it.
    ensures actionResult == KindOf(actionObj)
    // No action: the model's text (or "") and no write.
    ensures KindOf(actionObj).None? ==> finalMessage == Some(aiMessage.GetOr("")) && db.rows == old(db.rows)
    // Another user's notes are never touched.
    ensures OthersUntouched(old(db.rows), db.rows, user)
    ensures KindOf(actionObj) == Some("create_note") ==>
      var a := actionObj.value;
      if !ValidCreateTitle(CreateTitle(a)) then
        finalMessage == Some(InvalidTitleReply) && db.rows == old(db.rows)
      else if storeError.Some? then
        finalMessage == Some("Failed to create note: " + storeError.value) && db.rows == old(db.rows)
      else
        finalMessage == Some(CreatedReply(CreateTitle(a))) && db.rows == old(db.rows) + [NewNote(a, newId, user, now, created)]
    ensures KindOf(actionObj) == Some("update_note") ==>
      var a := actionObj.value;
      if !Truthy(a.id) then
        finalMessage == Some(MissingIdReply("update")) && db.rows == old(db.rows)
      else if storeError.Some? then
        finalMessage == Some("Failed to update note: " + storeError.value) && db.rows == old(db.rows)
      else
        finalMessage == Some("Note updated.") && db.rows == UpdateRows(old(db.rows), a.id.value, user, EditPatch(a, now))
    ensures KindOf(actionObj) == Some("delete_note") ==>
      var a := actionObj.value;
      if !Truthy(a.id) then
        finalMessage == Some(MissingIdReply("delete")) && db.rows == old(db.rows)
      else if storeError.Some? then
        finalMessage == Some("Failed to delete note: " + storeError.value) && db.rows == old(db.rows)
      else
        finalMessage == Some("Note deleted.") && db.rows == DeleteRows(old(db.rows), a.id.value, user)
    ensures KindOf(actionObj) == Some("complete_note") ==>
      var a := actionObj.value;
      if !Truthy(a.id) then
        finalMessage == Some(MissingIdReply("complete")) && db.rows == old(db.rows)
      else if storeError.Some? then
        finalMessage == Some("Failed to mark note as completed: " + storeError.value) && db.rows == old(db.rows)
      else
        finalMessage == Some("Note marked as completed.")
        && db.rows == UpdateRows(old(db.rows), a.id.value, user, CompletionPatch(true, now))
    ensures KindOf(actionObj) == Some("uncomplete_note") ==>
      var a := actionObj.value;
      if !Truthy(a.id) then
        finalMessage == Some(MissingIdReply("uncomplete")) && db.rows == old(db.rows)
      else if storeError.Some? then
        finalMessage == Some("Failed to mark note as uncompleted: " + storeError.value) && db.rows == old(db.rows)
      else
        finalMessage == Some("Note marked as uncompleted.")
        && db.rows == UpdateRows(old(db.rows), a.id.value, user, CompletionPatch(false, now))
    ensures KindOf(actionObj) == Some("search_notes") ==>
      var a := actionObj.value;
      db.rows == old(db.rows) &&
      if !Truthy(a.query) then
        finalMessage == Some(MissingQueryReply)
      else if storeError.Some? then
        finalMessage == Some("Failed to search notes: " + storeError.value)
      else
        finalMessage == Some(SearchReply(SearchRows(old(db.rows), user, a.query.value), a.query.value))
    ensures KindOf(actionObj) == Some("delete_all_notes") ==>
      if storeError.Some? then
        finalMessage == Some("Failed to delete all notes: " + storeError.value) && db.rows == old(db.rows)
      else
        finalMessage == Some("All notes deleted.") && db.rows == DeleteRowsOf(old(db.rows), user)
    // An unknown kind: the model's text is kept and nothing is written.
    ensures KindOf(actionObj).Some? && KindOf(actionObj).value !in KnownKinds ==>
      finalMessage == aiMessage && db.rows == old(db.rows)
  {
    actionResult := None;
    finalMessage := aiMessage;
    if KindOf(actionObj).None? {
      return Some(aiMessage.GetOr("")), None;
    }
    var a := actionObj.value;
    var kind := a.action.value;
    if kind == "create_note" {
      var title := CreateTitle(a);
      if !ValidCreateTitle(title) {
        finalMessage := Some(InvalidTitleReply);
      } else {
        var n := NewNote(a, newId, user, now, created);
        InsertScoped(db.rows, n);
        var error := db.Insert(n, storeError);
        finalMessage := if error.Some? then Some("Failed to create note: " + error.value) else Some(CreatedReply(title));
      }
    } else if kind == "update_note" {
      if !Truthy(a.id) {
        finalMessage := Some(MissingIdReply("update"));
      } else {
        UpdateScoped(db.rows, a.id.value, user, EditPatch(a, now));
        var error := db.Update(a.id.value, user, EditPatch(a, now), storeError);
        finalMessage := if error.Some? then Some("Failed to update note: " + error.value) else Some("Note updated.");
      }
    } else if kind == "delete_note" {
      if !Truthy(a.id) {
        finalMessage := Some(MissingIdReply("delete"));
      } else {
        DeleteScoped(db.rows, a.id.value, user);
        var error := db.Delete(a.id.value, user, storeError);
        finalMessage := if error.Some? then Some("Failed to delete note: " + error.value) else Some("Note deleted.");
      }
    } else if kind == "complete_note" {
      if !Truthy(a.id) {
        finalMessage := Some(MissingIdReply("complete"));
      } else {
        UpdateScoped(db.rows, a.id.value, user, CompletionPatch(true, now));
        var error := db.Update(a.id.value, user, CompletionPatch(true, now), storeError);
        finalMessage := if error.Some? then Some("Failed to mark note as completed: " + error.value)
                        else Some("Note marked as completed.");
      }
    } else if kind == "uncomplete_note" {
      if !Truthy(a.id) {
        finalMessage := Some(MissingIdReply("uncomplete"));
      } else {
        UpdateScoped(db.rows, a.id.value, user, CompletionPatch(false, now));
        var error := db.Update(a.id.value, user, CompletionPatch(false, now), storeError);
        finalMessage := if error.Some? then Some("Failed to mark note as uncompleted: " + error.value)
                        else Some("Note marked as uncompleted.");
      }
    } else if kind == "search_notes" {
      if !Truthy(a.query) {
        finalMessage := Some(MissingQueryReply);
      } else {
        var query := a.query.value;
        var found, error := db.Search(user, query, storeError);
        if error.Some? {
          finalMessage := Some("Failed to search notes: " + error.value);
        } else {
          finalMessage := Some(SearchReply(found, query));
        }
      }
    } else if kind == "delete_all_notes" {
      DeleteAllOfScoped(db.rows, user);
      var error := db.DeleteAllOf(user, storeError);
      finalMessage := if error.Some? then Some("Failed to delete all notes: " + error.value) else Some("All notes deleted.");
    }
    actionResult := a.action;
  }

  /** The action kinds the dispatcher acts on. */
  const KnownKinds: set<string> :=
    {"create_note", "update_note", "delete_note", "complete_note", "uncomplete_note", "search_notes", "delete_all_notes"}

  /** Every other user's rows are the same, in the same order, in `before` and `after`. */
  ghost predicate OthersUntouched(before: seq<Note>, after: seq<Note>, user: string)
  {
    forall other :: other != user ==> OwnedBy(after, other) == OwnedBy(before, other)
  }

  lemma UpdateScoped(rows: seq<Note>, id: string, user: string, p: Patch)
    ensures OthersUntouched(rows, UpdateRows(rows, id, user, p), user)
  {
    forall other | other != user ensures OwnedBy(UpdateRows(rows, id, user, p), other) == OwnedBy(rows, other) {
      UpdateKeepsOthers(rows, id, user, p, other);
    }
  }

  lemma InsertScoped(rows: seq<Note>, n: Note)
    ensures OthersUntouched(rows, rows + [n], n.userId)
  {
    forall other | other != n.userId ensures OwnedBy(rows + [n], other) == OwnedBy(rows, other) {
      InsertKeepsOthers(rows, n, other);
    }
  }

  lemma DeleteScoped(rows: seq<Note>, id: string, user: string)
    ensures OthersUntouched(rows, DeleteRows(rows, id, user), user)
  {
    forall other | other != user ensures OwnedBy(DeleteRows(rows, id, user), other) == OwnedBy(rows, other) {
      DeleteKeepsOthers(rows, id, user, other);
    }
  }

  lemma DeleteAllOfScoped(rows: seq<Note>, user: string)
    ensures OthersUntouched(rows, DeleteRowsOf(rows, user), user)
  {
    forall other | other != user ensures OwnedBy(DeleteRowsOf(rows, user), other) == OwnedBy(rows, other) {
      DeleteAllScoped(rows, user, other);
    }
  }
}
