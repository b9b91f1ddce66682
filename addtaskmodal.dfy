/**
 * The dialog that adds a task to a column: a title, which must have at
 * least three UTF-16 code units once trimmed, and a free-text list of tags; on a
 * valid submit both are handed on trimmed.
 */
module AddTaskModal {
  import opened Wrappers
  import opened Text

  const TitleRequiredMessage: string := "Task title is required"
  const TitleTooShortMessage: string := "Task title must be at least 3 characters"

  /** The error `validateForm` records for the title, if any. */
  function TitleError(title: string): Option<string> {
    if Trim(title) == [] then Some(TitleRequiredMessage)
    else if Utf16Length(Trim(title)) < 3 then Some(TitleTooShortMessage)
    else None
  }

  /**
   * A title all of white space is missing; one whose trim has one or two
   * UTF-16 code units is too short; any longer one passes.
   */
  lemma TitleErrorCases(title: string)
    ensures TitleError(title) == Some(TitleRequiredMessage) <==> AllSpace(title)
    ensures TitleError(title) == Some(TitleTooShortMessage) <==> 1 <= Utf16Length(Trim(title)) < 3
    ensures TitleError(title) == None <==> Utf16Length(Trim(title)) >= 3
  {
    TrimEmptyIffAllSpace(title);
  }

  /** Two emoji are four code units, so they make a long enough title. */
  lemma EmojiTitleAccepted()
    ensures TitleError("\U{1F389}\U{1F389}") == None
  {
    var t := "\U{1F389}\U{1F389}";
    assert TrimStart(t) == t;
    assert TrimEnd(t) == t;
    Utf16LengthOfEmoji();
  }

  /** What a valid submit passes on. */
  datatype TaskDraft = TaskDraft(title: string, tags: string)

  class AddTaskForm {
    var title: string
    var tags: string
    var titleError: Option<string>

    constructor ()
      ensures title == "" && tags == "" && titleError == None
    {
      title := "";
      tags := "";
      titleError := None;
    }

    /** The effect on `isOpen`: opening the dialog empties the form and its errors. */
    method OpenChanged(isOpen: bool)
      modifies this
      ensures isOpen ==> title == "" && tags == "" && titleError == None
      ensures !isOpen ==> title == old(title) && tags == old(tags) && titleError == old(titleError)
    {
      if isOpen {
        title := "";
        tags := "";
        titleError := None;
      }
    }

    method EditTitle(value: string)
      modifies this
      ensures title == value && tags == old(tags) && titleError == old(titleError)
    {
      title := value;
    }

    method EditTags(value: string)
      modifies this
      ensures tags == value && title == old(title) && titleError == old(titleError)
    {
      tags := value;
    }

    /** `validateForm`: records the title's error (or clears it) and reports whether there is none. */
    method ValidateForm() returns (ok: bool)
      modifies this
      ensures titleError == TitleError(title)
      ensures ok <==> Utf16Length(Trim(title)) >= 3
      ensures title == old(title) && tags == old(tags)
    {
      titleError := TitleError(title);
      TitleErrorCases(title);
      ok := titleError.None?;
    }

    /** `handleSubmit`: a valid form passes on its title and tags trimmed; an invalid one passes nothing. */
    method HandleSubmit() returns (draft: Option<TaskDraft>)
      modifies this
      ensures titleError == TitleError(title)
      ensures title == old(title) && tags == old(tags)
      ensures draft.Some? <==> Utf16Length(Trim(title)) >= 3
      ensures draft.Some? ==> draft.value == TaskDraft(Trim(title), Trim(tags))
      ensures draft.Some? ==> Utf16Length(draft.value.title) >= 3 && !IsSpace(draft.value.title[0])
    {
      var ok := ValidateForm();
      if ok {
        TrimEnds(title);
        draft := Some(TaskDraft(Trim(title), Trim(tags)));
      } else {
        draft := None;
      }
    }
  }
}
