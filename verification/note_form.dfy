/** The note form's validation schema: rules on `title` only; the content is not checked. */
module NoteForm {
  import opened Wrappers
  import opened Text
  import NotesActions

  const TitleRequired := "Title is required."
  /** The message says 30 although the limit enforced is 50. */
  const TitleTooLong := "Title cannot exceed 30 characters."
  const TitleOnlySpaces := "Title cannot contain only spaces."
  const MaxTitleLength := 50

  /**
   * The messages of the failing title checks, in schema order. A missing or
   * empty title fails `required` only, since the other checks pass on it.
   */
  function TitleErrors(title: Option<string>): (errs: seq<string>)
    ensures errs == [] <==> title.Some? && 1 <= |title.value| <= MaxTitleLength && !AllWhitespace(title.value)
    ensures title.None? || title == Some("") ==> errs == [TitleRequired]
    ensures title.Some? && title.value != "" ==>
      && TitleRequired !in errs
      && (TitleTooLong in errs <==> |title.value| > MaxTitleLength)
      && (TitleOnlySpaces in errs <==> AllWhitespace(title.value))
  {
    match title
    case None => [TitleRequired]
    case Some(t) =>
      if t == "" then [TitleRequired]
      else (if |t| > MaxTitleLength then [TitleTooLong] else []) + (if AllWhitespace(t) then [TitleOnlySpaces] else [])
  }

  /** The title the form accepts is one the chat's create action accepts once trimmed. */
  lemma FormTitleAcceptedByChat(t: string)
    requires TitleErrors(Some(t)) == []
    ensures NotesActions.ValidCreateTitle(Trim(t))
  {
    assert !IsWhitespace(t[0]) || !IsWhitespace(t[|t| - 1]) || exists i :: 0 <= i < |t| && !IsWhitespace(t[i]);
  }

  /**
   * The converse fails: a title of 50 letters after one leading space is
   * rejected by the form but accepted by the chat, which trims first.
   */
  lemma ChatAcceptsWhatFormRejects()
    ensures var t := " " + seq(50, _ => 'a');
      TitleErrors(Some(t)) == [TitleTooLong] && NotesActions.ValidCreateTitle(Trim(t))
  {
    var letters := seq(50, _ => 'a');
    var t := " " + letters;
    assert t[1..] == letters;
    assert letters[0] == 'a' && letters[49] == 'a';
    assert TrimStart(letters) == letters;
    assert TrimStart(t) == letters;
    assert TrimEnd(letters) == letters;
    assert Trim(t) == letters;
    assert !AllWhitespace(letters);
    assert !AllWhitespace(t) by {
      assert t[1] == 'a';
    }
  }
}
