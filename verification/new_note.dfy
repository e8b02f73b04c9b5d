/** Whether clicking away from the new-note container closes it rather than submitting it. */
module NewNoteContainer {

  /** A form field's value: `null`/`undefined` or a string. */
  datatype FormValue = Nil | Str(s: string)

  /** A value holding text. */
  predicate HasText(v: FormValue)
  {
    v.Str? && v.s != ""
  }

  /**
   * `shouldCloseNewNoteContainer(isActive, isDirty, getValues)` with the two
   * field values read up front. When the container is active and the form
   * dirty, it closes exactly when neither field has text and not both are nil.
   */
  function ShouldClose(isActive: bool, isDirty: bool, title: FormValue, content: FormValue): (r: bool)
    ensures !isActive ==> !r
    ensures isActive && !isDirty ==> r
    ensures isActive && isDirty ==> (r <==> !HasText(title) && !HasText(content) && !(title.Nil? && content.Nil?))
  {
    var titleEmpty := title == Str("");
    var contentEmpty := content == Str("");
    var titleNil := title.Nil?;
    var contentNil := content.Nil?;
    isActive && (!isDirty || (contentEmpty && titleNil) || (titleEmpty && contentNil) || (titleEmpty && contentEmpty))
  }
}
