/**
 * The note thunks: each changes the store optimistically, makes one remote
 * call, and on failure compensates and rethrows. The remote call's outcome is
 * a parameter (`remoteFails`, or the fetched data); `shown` is the list the
 * store holds while the call is in flight.
 */
module NoteHandlers {
  import opened Wrappers
  import opened Records
  import opened NoteSlice

  /** Which loader flag `handleFetchNotes` was given. */
  datatype Loader = NavBarLoader | NotesLoader

  /** The modal visibility callback `handleUpdateNote` receives. */
  class ModalToggle {
    var open: bool
    var calls: nat

    constructor (open: bool)
      ensures this.open == open && calls == 0
    {
      this.open := open;
      calls := 0;
    }

    method Toggle()
      modifies this
      ensures open == !old(open) && calls == old(calls) + 1
    {
      open := !open;
      calls := calls + 1;
    }
  }

  /** The note `handleAddNote` puts in the store: the new note with both timestamps as ISO strings. */
  function Stamped(newNote: Record, lastModified: string, createdAt: string): (r: Record)
    ensures Id(r) == Id(newNote)
    ensures Get(r, "lastModified") == Str(lastModified) && Get(r, "created_at") == Str(createdAt)
    ensures forall k :: k != "lastModified" && k != "created_at" ==> Get(r, k) == Get(newNote, k)
  {
    newNote + map["lastModified" := Str(lastModified), "created_at" := Str(createdAt)]
  }

  /** The note `handleCompleteNote` sends: `completed` negated, `lastModified` now, every other field kept. */
  function Flipped(note: Record, now: string): (r: Record)
    ensures Id(r) == Id(note)
    ensures Get(r, "completed") == Bool(!Truthy(Get(note, "completed")))
    ensures Get(r, "lastModified") == Str(now)
    ensures forall k :: k != "completed" && k != "lastModified" ==> Get(r, k) == Get(note, k)
    ensures r.Keys == note.Keys + {"completed", "lastModified"}
  {
    note + map["completed" := Bool(!Truthy(Get(note, "completed"))), "lastModified" := Str(now)]
  }

  /** The payload `handleUpdateNote` dispatches: the edit with `lastModified` as an ISO string. */
  function Edited(updatedNote: Record, lastModified: string): (r: Record)
    ensures Id(r) == Id(updatedNote)
    ensures r.Keys == updatedNote.Keys + {"lastModified"}
    ensures Get(r, "lastModified") == Str(lastModified)
    ensures forall k :: k != "lastModified" ==> Get(r, k) == Get(updatedNote, k)
  {
    updatedNote + map["lastModified" := Str(lastModified)]
  }

  method HandleAddNote(st: NoteState, newNote: Record, lastModified: string, now: string, remoteFails: bool)
    returns (shown: seq<Record>, thrown: bool)
    modifies st
    ensures shown == old(st.notes) + [Stamped(newNote, lastModified, now)]
    ensures thrown == remoteFails
    ensures !remoteFails ==> st.notes == shown
    ensures remoteFails ==> st.notes == Removed(shown, Id(newNote))
    // With an id the list did not hold, a failure gives back the list as it was.
    ensures remoteFails && FindIndex(old(st.notes), Id(newNote)).None? ==> st.notes == old(st.notes)
    ensures !st.navBarLoader
    ensures st.selectedNote == old(st.selectedNote) && st.notesLoader == old(st.notesLoader) && st.user == old(st.user)
  {
    st.SetNavBarLoader(true);
    var note := Stamped(newNote, lastModified, now);
    st.AddNote(note);
    shown := st.notes;
    if remoteFails {
      st.DeleteNote(Id(newNote));
      if FindIndex(old(st.notes), Id(newNote)).None? {
        RemoveUndoesAppend(old(st.notes), note);
      }
      st.SetNavBarLoader(false);
      thrown := true;
    } else {
      st.SetNavBarLoader(false);
      thrown := false;
    }
  }

  /** `response` is the fetched list, or None when the request failed. */
  method HandleFetchNotes(st: NoteState, loader: Loader, response: Option<seq<Record>>)
    returns (thrown: bool)
    modifies st
    ensures thrown == response.None?
    ensures response.Some? ==> st.notes == response.value
    ensures response.None? ==> st.notes == old(st.notes)
    ensures loader == NavBarLoader ==> !st.navBarLoader && st.notesLoader == old(st.notesLoader)
    ensures loader == NotesLoader ==> !st.notesLoader && st.navBarLoader == old(st.navBarLoader)
    ensures st.selectedNote == old(st.selectedNote) && st.user == old(st.user)
  {
    SetLoader(st, loader, true);
    match response
    case Some(data) =>
      st.SetNotes(data);
      SetLoader(st, loader, false);
      thrown := false;
    case None =>
      SetLoader(st, loader, false);
      thrown := true;
  }

  /** Dispatching the loader action the fetch handler was given. */
  method SetLoader(st: NoteState, loader: Loader, on: bool)
    modifies st
    ensures loader == NavBarLoader ==> st.navBarLoader == on && st.notesLoader == old(st.notesLoader)
    ensures loader == NotesLoader ==> st.notesLoader == on && st.navBarLoader == old(st.navBarLoader)
    ensures st.notes == old(st.notes) && st.selectedNote == old(st.selectedNote) && st.user == old(st.user)
  {
    match loader
    case NavBarLoader => st.SetNavBarLoader(on);
    case NotesLoader => st.SetNotesLoader(on);
  }

  method HandleDeleteNote(st: NoteState, note: Record, remoteFails: bool)
    returns (shown: seq<Record>, thrown: bool)
    modifies st
    ensures shown == Removed(old(st.notes), Id(note))
    // The local delete is never undone.
    ensures st.notes == shown
    ensures thrown == remoteFails
    ensures !st.navBarLoader
    ensures st.selectedNote == old(st.selectedNote) && st.notesLoader == old(st.notesLoader) && st.user == old(st.user)
  {
    st.SetNavBarLoader(true);
    st.DeleteNote(Id(note));
    shown := st.notes;
    st.SetNavBarLoader(false);
    thrown := remoteFails;
  }

  method HandleCompleteNote(st: NoteState, note: Record, now: string, remoteFails: bool)
    returns (shown: seq<Record>, thrown: bool)
    modifies st
    ensures shown == Merged(old(st.notes), Flipped(note, now))
    ensures thrown == remoteFails
    ensures !remoteFails ==> st.notes == shown
    ensures !remoteFails ==> st.selectedNote == MergedSelection(old(st.notes), old(st.selectedNote), Flipped(note, now))
    ensures remoteFails ==> st.notes == Merged(shown, note)
    ensures remoteFails ==>
      st.selectedNote == MergedSelection(shown, MergedSelection(old(st.notes), old(st.selectedNote), Flipped(note, now)), note)
    // When the note is the stored entry and already has both fields, a failure restores the list.
    ensures remoteFails && FindIndex(old(st.notes), Id(note)).Some?
      && old(st.notes)[FindIndex(old(st.notes), Id(note)).value] == note
      && "completed" in note && "lastModified" in note
      ==> st.notes == old(st.notes)
    ensures !st.navBarLoader
    ensures st.notesLoader == old(st.notesLoader) && st.user == old(st.user)
  {
    var updated := Flipped(note, now);
    st.SetNavBarLoader(true);
    st.UpdateNote(updated);
    shown := st.notes;
    if remoteFails {
      st.UpdateNote(note);
      if FindIndex(old(st.notes), Id(note)).Some? && old(st.notes)[FindIndex(old(st.notes), Id(note)).value] == note
        && "completed" in note && "lastModified" in note
      {
        ReapplyRestores(old(st.notes), updated);
      }
      st.SetNavBarLoader(false);
      thrown := true;
    } else {
      st.SetNavBarLoader(false);
      thrown := false;
    }
  }

  /** `selectedNote` is the handler's own argument, the note as it was before the edit. */
  method HandleUpdateNote(
    st: NoteState, updatedNote: Record, lastModified: string, toggle: ModalToggle,
    selectedNote: Record, remoteFails: bool)
    returns (shown: seq<Record>, thrown: bool)
    modifies st, toggle
    ensures shown == Merged(old(st.notes), Edited(updatedNote, lastModified))
    // The modal is toggled exactly once.
    ensures toggle.open == !old(toggle.open) && toggle.calls == old(toggle.calls) + 1
    ensures thrown == remoteFails
    ensures !remoteFails ==> st.notes == shown
    ensures !remoteFails ==> st.selectedNote == MergedSelection(old(st.notes), old(st.selectedNote), Edited(updatedNote, lastModified))
    ensures remoteFails ==> st.notes == Merged(shown, selectedNote)
    ensures remoteFails ==>
      st.selectedNote == MergedSelection(shown, MergedSelection(old(st.notes), old(st.selectedNote), Edited(updatedNote, lastModified)), selectedNote)
    // When `selectedNote` is the stored entry and has every field the edit sets, a failure restores the list.
    ensures remoteFails && FindIndex(old(st.notes), Id(updatedNote)).Some?
      && old(st.notes)[FindIndex(old(st.notes), Id(updatedNote)).value] == selectedNote
      && Edited(updatedNote, lastModified).Keys <= selectedNote.Keys
      ==> st.notes == old(st.notes)
    ensures !st.navBarLoader
    ensures st.notesLoader == old(st.notesLoader) && st.user == old(st.user)
  {
    var payload := Edited(updatedNote, lastModified);
    st.SetNavBarLoader(true);
    st.UpdateNote(payload);
    shown := st.notes;
    toggle.Toggle();
    if remoteFails {
      st.UpdateNote(selectedNote);
      if FindIndex(old(st.notes), Id(updatedNote)).Some?
        && old(st.notes)[FindIndex(old(st.notes), Id(updatedNote)).value] == selectedNote
        && payload.Keys <= selectedNote.Keys
      {
        ReapplyRestores(old(st.notes), payload);
      }
      st.SetNavBarLoader(false);
      thrown := true;
    } else {
      st.SetNavBarLoader(false);
      thrown := false;
    }
  }
}
