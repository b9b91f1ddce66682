/**
 * The filter bar of the task board: toggling a tag in the list of
 * selected tags, clearing every filter, and whether any filter is on.
 */
module TaskFilters {
  import opened Seqs

  /** The test `t !== tag` that removes a tag from the selection. */
  function IsNot(tag: string): string -> bool {
    t => t != tag
  }

  /** A selected tag is removed (every copy of it); any other tag is appended at the end. */
  function ToggleTag(selected: seq<string>, tag: string): seq<string> {
    if tag in selected then Filter(selected, IsNot(tag)) else selected + [tag]
  }

  /** Toggling a tag that is not selected appends it. */
  lemma ToggleAbsentAppends(selected: seq<string>, tag: string)
    requires tag !in selected
    ensures ToggleTag(selected, tag) == selected + [tag]
  {
  }

  /** Toggling a selected tag removes every copy of it and keeps the other tags, in their order. */
  lemma TogglePresentRemoves(selected: seq<string>, tag: string)
    requires tag in selected
    ensures tag !in ToggleTag(selected, tag)
    ensures forall t :: t != tag ==> (t in ToggleTag(selected, tag) <==> t in selected)
    ensures IsSubsequence(ToggleTag(selected, tag), selected)
  {
    FilterMembers(selected, IsNot(tag));
    FilterIsSubsequence(selected, IsNot(tag));
  }

  /** A toggle flips whether the tag is selected. */
  lemma ToggleFlips(selected: seq<string>, tag: string)
    ensures tag in ToggleTag(selected, tag) <==> tag !in selected
  {
    if tag in selected {
      TogglePresentRemoves(selected, tag);
    }
  }

  /** Toggling a tag that was not selected twice gives back exactly the original selection. */
  lemma ToggleTwiceRestores(selected: seq<string>, tag: string)
    requires tag !in selected
    ensures ToggleTag(ToggleTag(selected, tag), tag) == selected
  {
    var s := selected + [tag];
    assert tag in s;
    FilterAllPass(selected, IsNot(tag));
    FilterConcat(selected, [tag], IsNot(tag));
  }

  /** The query and the tag selection. */
  datatype Filters = Filters(query: string, tags: seq<string>)

  /** `searchQuery || selectedTags.length > 0`. */
  predicate HasActiveFilters(f: Filters) {
    f.query != [] || |f.tags| > 0
  }

  /** Clearing leaves an empty query and no selected tag, so no filter is active. */
  function ClearAllFilters(): (f: Filters)
    ensures f.query == [] && f.tags == []
    ensures !HasActiveFilters(f)
  {
    Filters("", [])
  }

  /** Filters are active exactly when they are not the cleared ones. */
  lemma ActiveUnlessCleared(f: Filters)
    ensures HasActiveFilters(f) <==> f != ClearAllFilters()
  {
  }
}
