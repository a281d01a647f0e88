/**
 * The editing logic the two task forms share: the new-task dialog
 * (frontend/src/components/AddTaskDialog.tsx) and the edit dialog of a card
 * (frontend/src/components/TaskCard.tsx) add and remove tags with the same
 * expressions and map the assignee selector the same way.
 */
module TaskForm {
  import opened Wrappers
  import opened Seqs
  import opened Text
  import opened Kanban

  /** `handleAddTag` adds only when the trimmed input is non-empty and not yet a tag. */
  predicate AddsTag(tags: seq<string>, input: string)
  {
    !IsBlank(input) && Trim(input) !in tags
  }

  /** The tags after `handleAddTag`: `[...tags, tagInput.trim()]` when it adds, else unchanged. */
  function WithTag(tags: seq<string>, input: string): (r: seq<string>)
    ensures |tags| <= |r| <= |tags| + 1 && r[..|tags|] == tags
    ensures forall t :: t in r <==> t in tags || (!IsBlank(input) && t == Trim(input))
  {
    if AddsTag(tags, input) then tags + [Trim(input)] else tags
  }

  /** The tag input after `handleAddTag`: cleared when it adds, else unchanged. */
  function TagInputAfterAdd(tags: seq<string>, input: string): (r: string)
    ensures r == "" || r == input
    ensures r == "" <==> AddsTag(tags, input) || input == ""
  {
    if AddsTag(tags, input) then "" else input
  }

  function TagIsNot(tag: string): string -> bool
  {
    (t: string) => t != tag
  }

  /** `tags.filter(tag => tag !== tagToRemove)` */
  function WithoutTag(tags: seq<string>, tag: string): (r: seq<string>)
    ensures |r| <= |tags|
    ensures forall t :: t in r <==> t in tags && t != tag
  {
    Filter(TagIsNot(tag), tags)
  }

  /** A tag as the forms store it: trimmed and non-empty. */
  predicate TagWellFormed(t: string)
  {
    t != [] && Trim(t) == t
  }

  /**
   * Adding a tag leaves the tags alone exactly when the trimmed input is
   * blank or already present; otherwise the trimmed input is appended.
   */
  lemma AddTagEffect(tags: seq<string>, input: string)
    ensures WithTag(tags, input) == tags <==> IsBlank(input) || Trim(input) in tags
    ensures !IsBlank(input) && Trim(input) !in tags ==> WithTag(tags, input) == tags + [Trim(input)]
  {
    if AddsTag(tags, input) {
      assert |WithTag(tags, input)| == |tags| + 1;
    }
  }

  /** Adding a tag keeps the tags free of duplicates. */
  lemma AddTagKeepsNoDuplicates(tags: seq<string>, input: string)
    requires NoDuplicates(tags)
    ensures NoDuplicates(WithTag(tags, input))
  {
    if AddsTag(tags, input) {
      var r := WithTag(tags, input);
      forall i, j | 0 <= i < j < |r| ensures r[i] != r[j] {
        if j == |tags| {
          assert tags[i] in tags;
        }
      }
    }
  }

  /** Adding the same input twice is adding it once. */
  lemma AddTagIdempotent(tags: seq<string>, input: string)
    ensures WithTag(WithTag(tags, input), input) == WithTag(tags, input)
  {
    if AddsTag(tags, input) {
      assert Trim(input) in WithTag(tags, input);
    }
  }

  /** Every added tag is trimmed and non-empty, so well-formed tags stay well-formed. */
  lemma AddTagKeepsWellFormed(tags: seq<string>, input: string)
    requires forall t :: t in tags ==> TagWellFormed(t)
    ensures forall t :: t in WithTag(tags, input) ==> TagWellFormed(t)
  {
    TrimIdempotent(input);
  }

  /** Removing a tag that was just added gives back the tags before the add. */
  lemma RemoveUndoesAdd(tags: seq<string>, input: string)
    requires AddsTag(tags, input)
    ensures WithoutTag(WithTag(tags, input), Trim(input)) == tags
  {
    FilterConcat(TagIsNot(Trim(input)), tags, [Trim(input)]);
    FilterKeepsAll(TagIsNot(Trim(input)), tags);
  }

  /** In duplicate-free tags, removing a tag cuts out its one occurrence and keeps the rest in order. */
  lemma RemoveTagRemovesOne(tags: seq<string>, k: nat)
    requires NoDuplicates(tags) && k < |tags|
    ensures WithoutTag(tags, tags[k]) == tags[..k] + tags[k + 1..]
  {
    FilterRejectsOne(TagIsNot(tags[k]), tags, k);
  }

  /** Removing keeps the tags free of duplicates and well formed. */
  lemma RemoveTagKeepsInvariant(tags: seq<string>, tag: string)
    requires NoDuplicates(tags) && forall t :: t in tags ==> TagWellFormed(t)
    ensures NoDuplicates(WithoutTag(tags, tag)) && forall t :: t in WithoutTag(tags, tag) ==> TagWellFormed(t)
  {
    FilterKeepsNoDuplicates(TagIsNot(tag), tags);
  }

  /** The assignee selector's value: `assignedTo || 'unassigned'`. */
  function SelectValue(assignedTo: Option<Id>): (r: string)
    ensures r != ""
    ensures r == "unassigned" <==> assignedTo.None? || assignedTo == Some("") || assignedTo == Some("unassigned")
  {
    match assignedTo
    case Some(id) => if id != "" then id else "unassigned"
    case None => "unassigned"
  }

  /** The assignee a selection stores: `value === 'unassigned' ? undefined : value`. */
  function AssigneeOf(value: string): (r: Option<Id>)
    ensures r.None? <==> value == "unassigned"
    ensures r.Some? ==> r.value == value
  {
    if value == "unassigned" then None else Some(value)
  }

  /**
   * The selector shows the stored assignee and selecting it stores it back,
   * for every assignee but the two ids the selector cannot tell from
   * "nobody" (the empty id and the id 'unassigned').
   */
  lemma SelectRoundTrip(assignedTo: Option<Id>, value: string)
    ensures assignedTo != Some("") && assignedTo != Some("unassigned") ==> AssigneeOf(SelectValue(assignedTo)) == assignedTo
    ensures value != "" ==> SelectValue(AssigneeOf(value)) == value
  {
  }
}
