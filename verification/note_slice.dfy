/**
 * The client notes store: the state of the `notes` slice and its reducers.
 * The reducers change the list in place (push, index assignment, splice); here
 * `NoteState.notes` is a sequence the reducer methods reassign, and the pure
 * functions `Merged` and `Removed` say what `updateNote` and `deleteNote` make
 * of it.
 */
module NoteSlice {
  import opened Wrappers
  import opened Records

  /** `notes.findIndex(n => n.id === id)`, with None for -1. */
  function FindIndex(notes: seq<Record>, id: Value): (r: Option<nat>)
    ensures r.Some? ==> r.value < |notes| && Id(notes[r.value]) == id
    ensures r.Some? ==> forall j :: 0 <= j < r.value ==> Id(notes[j]) != id
    ensures r.None? <==> forall j :: 0 <= j < |notes| ==> Id(notes[j]) != id
  {
    if |notes| == 0 then None
    else if Id(notes[0]) == id then Some(0)
    else
      match FindIndex(notes[1..], id)
      case None => None
      case Some(i) => Some(i + 1)
  }

  /** The list after `updateNote(payload)`: the first entry with the payload's id has the payload spread over it. */
  function Merged(notes: seq<Record>, payload: Record): (r: seq<Record>)
    ensures |r| == |notes|
    ensures FindIndex(notes, Id(payload)).None? ==> r == notes
    ensures FindIndex(notes, Id(payload)).Some? ==>
      var i := FindIndex(notes, Id(payload)).value;
      && (forall j :: 0 <= j < |notes| && j != i ==> r[j] == notes[j])
      && r[i].Keys == notes[i].Keys + payload.Keys
      && (forall k :: k in payload ==> r[i][k] == payload[k])
      && (forall k :: k in notes[i] && k !in payload ==> r[i][k] == notes[i][k])
  {
    match FindIndex(notes, Id(payload))
    case None => notes
    case Some(i) => notes[i := notes[i] + payload]
  }

  /** `selectedNote` after `updateNote(payload)`: the merged entry when the selection has the payload's id and the id is in the list. */
  function MergedSelection(notes: seq<Record>, selected: Option<Record>, payload: Record): (r: Option<Record>)
    ensures r != selected ==>
      && FindIndex(notes, Id(payload)).Some?
      && selected.Some? && Id(selected.value) == Id(payload)
      && r == Some(Merged(notes, payload)[FindIndex(notes, Id(payload)).value])
    ensures FindIndex(notes, Id(payload)).Some? && selected.Some? && Id(selected.value) == Id(payload) ==>
      r == Some(Merged(notes, payload)[FindIndex(notes, Id(payload)).value])
  {
    match FindIndex(notes, Id(payload))
    case Some(i) =>
      if selected.Some? && Id(selected.value) == Id(payload) then Some(notes[i] + payload) else selected
    case None => selected
  }

  /** The list after `deleteNote(id)`: the first entry with that id is cut out and the rest keep their order. */
  function Removed(notes: seq<Record>, id: Value): (r: seq<Record>)
    ensures FindIndex(notes, id).None? ==> r == notes
    ensures FindIndex(notes, id).Some? ==>
      var i := FindIndex(notes, id).value;
      |r| == |notes| - 1 && r == notes[..i] + notes[i + 1..]
  {
    match FindIndex(notes, id)
    case None => notes
    case Some(i) => notes[..i] + notes[i + 1..]
  }

  /** Appending a note whose id the list does not hold, then deleting that id, gives back the list. */
  lemma RemoveUndoesAppend(notes: seq<Record>, n: Record)
    requires FindIndex(notes, Id(n)).None?
    ensures Removed(notes + [n], Id(n)) == notes
  {
    FindIndexAppend(notes, n);
    assert (notes + [n])[..|notes|] == notes;
  }

  /** A note appended to a list without its id is found at the end. */
  lemma {:induction false} FindIndexAppend(notes: seq<Record>, n: Record)
    requires FindIndex(notes, Id(n)).None?
    ensures FindIndex(notes + [n], Id(n)) == Some(|notes|)
    decreases |notes|
  {
    if |notes| > 0 {
      assert (notes + [n])[1..] == notes[1..] + [n];
      FindIndexAppend(notes[1..], n);
    }
  }

  /** A merge never changes an entry's id. */
  lemma MergeKeepsIds(notes: seq<Record>, payload: Record)
    ensures forall j :: 0 <= j < |notes| ==> Id(Merged(notes, payload)[j]) == Id(notes[j])
  {
  }

  /** Two lists whose entries have the same ids find the same first index. */
  lemma {:induction false} FindIndexByIds(a: seq<Record>, b: seq<Record>, id: Value)
    requires |a| == |b|
    requires forall j :: 0 <= j < |a| ==> Id(a[j]) == Id(b[j])
    ensures FindIndex(a, id) == FindIndex(b, id)
    decreases |a|
  {
    if |a| > 0 && Id(a[0]) != id {
      FindIndexByIds(a[1..], b[1..], id);
    }
  }

  /**
   * Re-applying the entry an update replaced restores the list, provided the
   * update set no field that entry lacks.
   */
  lemma ReapplyRestores(notes: seq<Record>, payload: Record)
    requires FindIndex(notes, Id(payload)).Some?
    requires payload.Keys <= notes[FindIndex(notes, Id(payload)).value].Keys
    ensures
      var original := notes[FindIndex(notes, Id(payload)).value];
      Merged(Merged(notes, payload), original) == notes
  {
    var i := FindIndex(notes, Id(payload)).value;
    var original := notes[i];
    var once := Merged(notes, payload);
    MergeKeepsIds(notes, payload);
    FindIndexByIds(once, notes, Id(payload));
    assert FindIndex(once, Id(original)) == Some(i);
    assert once[i] + original == original;
    assert Merged(once, original) == once[i := original];
  }

  /** An update whose id is not in the list changes neither the list nor the selection. */
  lemma UpdateUnknownIdNoop(notes: seq<Record>, selected: Option<Record>, payload: Record)
    requires forall j :: 0 <= j < |notes| ==> Id(notes[j]) != Id(payload)
    ensures Merged(notes, payload) == notes
    ensures MergedSelection(notes, selected, payload) == selected
  {
  }

  /** The state of the slice. */
  class NoteState {
    var notes: seq<Record>
    var selectedNote: Option<Record>
    var navBarLoader: bool
    var notesLoader: bool
    var user: Option<Record>

    /** The initial state: no notes, nothing selected, both loaders off, no user. */
    constructor ()
      ensures notes == [] && selectedNote == None
      ensures !navBarLoader && !notesLoader && user == None
    {
      notes := [];
      selectedNote := None;
      navBarLoader := false;
      notesLoader := false;
      user := None;
    }

    method SetNotes(payload: seq<Record>)
      modifies this
      ensures notes == payload
      ensures selectedNote == old(selectedNote) && navBarLoader == old(navBarLoader)
      ensures notesLoader == old(notesLoader) && user == old(user)
    {
      notes := payload;
    }

    method SelectNote(payload: Option<Record>)
      modifies this
      ensures selectedNote == payload
      ensures notes == old(notes) && navBarLoader == old(navBarLoader)
      ensures notesLoader == old(notesLoader) && user == old(user)
    {
      selectedNote := payload;
    }

    method AddNote(payload: Record)
      modifies this
      ensures notes == old(notes) + [payload]
      ensures selectedNote == old(selectedNote) && navBarLoader == old(navBarLoader)
      ensures notesLoader == old(notesLoader) && user == old(user)
    {
      notes := notes + [payload];
    }

    method UpdateNote(payload: Record)
      modifies this
      ensures notes == Merged(old(notes), payload)
      ensures selectedNote == MergedSelection(old(notes), old(selectedNote), payload)
      ensures navBarLoader == old(navBarLoader) && notesLoader == old(notesLoader) && user == old(user)
    {
      var index := FindIndex(notes, Id(payload));
      if index.Some? {
        var i := index.value;
        notes := notes[i := notes[i] + payload];
        if selectedNote.Some? && Id(selectedNote.value) == Id(payload) {
          selectedNote := Some(notes[i]);
        }
      }
    }

    method DeleteNote(id: Value)
      modifies this
      ensures notes == Removed(old(notes), id)
      ensures selectedNote == old(selectedNote) && navBarLoader == old(navBarLoader)
      ensures notesLoader == old(notesLoader) && user == old(user)
    {
      var index := FindIndex(notes, id);
      if index.Some? {
        var i := index.value;
        notes := notes[..i] + notes[i + 1..];
      }
    }

    method SetNavBarLoader(payload: bool)
      modifies this
      ensures navBarLoader == payload
      ensures notes == old(notes) && selectedNote == old(selectedNote)
      ensures notesLoader == old(notesLoader) && user == old(user)
    {
      navBarLoader := payload;
    }

    method SetNotesLoader(payload: bool)
      modifies this
      ensures notesLoader == payload
      ensures notes == old(notes) && selectedNote == old(selectedNote)
      ensures navBarLoader == old(navBarLoader) && user == old(user)
    {
      notesLoader := payload;
    }

    method SetUser(payload: Option<Record>)
      modifies this
      ensures user == payload
      ensures notes == old(notes) && selectedNote == old(selectedNote)
      ensures navBarLoader == old(navBarLoader) && notesLoader == old(notesLoader)
    {
      user := payload;
    }
  }
}
