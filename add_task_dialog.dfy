/**
 * The new-task dialog (frontend/src/components/AddTaskDialog.tsx): seven
 * form fields, the tag editor shared with the card editor, and the submit
 * handler that hands a trimmed draft to the board and resets the form.
 */
module AddTaskDialog {
  import opened Wrappers
  import opened Seqs
  import opened Text
  import opened Kanban
  import opened TaskForm
  import opened App

  class TaskDialog {
    var title: string
    var description: string
    var priority: Priority
    var status: Status
    var assignedTo: Option<Id>
    var tags: seq<string>
    var tagInput: string

    /** The tags only ever come from the tag editor: distinct, trimmed and non-empty. */
    ghost predicate Valid()
      reads this
    {
      NoDuplicates(tags) && forall t :: t in tags ==> TagWellFormed(t)
    }

    /** The initial `useState` values, which a submit restores. */
    predicate AtDefaults()
      reads this
    {
      && title == "" && description == ""
      && priority == Medium && status == Todo
      && assignedTo == None && tags == [] && tagInput == ""
    }

    constructor ()
      ensures Valid() && AtDefaults()
    {
      title := "";
      description := "";
      priority := Medium;
      status := Todo;
      assignedTo := None;
      tags := [];
      tagInput := "";
    }

    method SetTitle(value: string)
      requires Valid()
      modifies this`title
      ensures Valid() && title == value
    {
      title := value;
    }

    method SetDescription(value: string)
      requires Valid()
      modifies this`description
      ensures Valid() && description == value
    {
      description := value;
    }

    method SetPriority(value: Priority)
      requires Valid()
      modifies this`priority
      ensures Valid() && priority == value
    {
      priority := value;
    }

    method SetStatus(value: Status)
      requires Valid()
      modifies this`status
      ensures Valid() && status == value
    {
      status := value;
    }

    /** The assignee selector: 'unassigned' clears the assignee, any other value is stored. */
    method SelectAssignee(value: string)
      requires Valid()
      modifies this`assignedTo
      ensures Valid() && assignedTo == AssigneeOf(value)
    {
      assignedTo := AssigneeOf(value);
    }

    method SetTagInput(value: string)
      requires Valid()
      modifies this`tagInput
      ensures Valid() && tagInput == value
    {
      tagInput := value;
    }

    /** `handleAddTag`, from the Add button or Enter in the tag input. */
    method AddTag()
      requires Valid()
      modifies this`tags, this`tagInput
      ensures Valid()
      ensures tags == WithTag(old(tags), old(tagInput))
      ensures tagInput == TagInputAfterAdd(old(tags), old(tagInput))
    {
      AddTagKeepsNoDuplicates(tags, tagInput);
      AddTagKeepsWellFormed(tags, tagInput);
      if AddsTag(tags, tagInput) {
        tags := WithTag(tags, tagInput);
        tagInput := "";
      }
    }

    /** `handleRemoveTag` */
    method RemoveTag(tag: string)
      requires Valid()
      modifies this`tags
      ensures Valid()
      ensures tags == WithoutTag(old(tags), tag)
    {
      RemoveTagKeepsInvariant(tags, tag);
      tags := WithoutTag(tags, tag);
    }

    /**
     * `handleSubmit`: sends `Submission` of the fields; when it sends
     * something the form returns to its defaults, otherwise nothing changes.
     */
    method Submit() returns (sent: Option<TaskDraft>)
      requires Valid()
      modifies this
      ensures Valid()
      ensures sent == Submission(old(title), old(description), old(status), old(priority), old(tags), old(assignedTo))
      ensures sent.None? ==> unchanged(this)
      ensures sent.Some? ==> AtDefaults()
    {
      sent := Submission(title, description, status, priority, tags, assignedTo);
      if sent.None? {
        return;
      }
      Reset();
    }

    /** The "Reset form" block of `handleSubmit`. */
    method Reset()
      modifies this
      ensures Valid() && AtDefaults()
    {
      title := "";
      description := "";
      priority := Medium;
      status := Todo;
      assignedTo := None;
      tags := [];
      tagInput := "";
    }
  }

  /**
   * What `handleSubmit` hands to `onAddTask`: a draft exactly when the title
   * is not blank; its title is then the trimmed title, not blank and already
   * trimmed, its description the trimmed description, and the other fields
   * are passed through.
   */
  function Submission(title: string, description: string, status: Status, priority: Priority,
                      tags: seq<string>, assignedTo: Option<Id>): (r: Option<TaskDraft>)
    ensures r.Some? <==> !IsBlank(title)
    ensures r.Some? ==>
      && !IsBlank(r.value.title) && Trim(r.value.title) == r.value.title && r.value.title == Trim(title)
      && Trim(r.value.description) == r.value.description && r.value.description == Trim(description)
      && r.value.status == status && r.value.priority == priority
      && r.value.tags == tags && r.value.assignedTo == assignedTo
  {
    TrimIdempotent(title);
    TrimIdempotent(description);
    if IsBlank(title) then None
    else Some(TaskDraft(Trim(title), Trim(description), status, priority, tags, assignedTo))
  }

  /**
   * The dialog wired to the board (`onAddTask={handleAddTask}`): a blank
   * title leaves the board and the dialog alone; otherwise the board gains
   * one task at the end, built from the submitted draft on the current
   * board, and the dialog returns to its defaults. Only the tasks change.
   */
  method CreateTask(dialog: TaskDialog, board: Board, id: Id, now: int)
    requires dialog.Valid() && board.Valid()
    modifies dialog, board
    ensures dialog.Valid() && board.Valid()
    ensures board.lists == old(board.lists) && board.users == old(board.users)
    ensures board.currentListId == old(board.currentListId) && board.sortOrder == old(board.sortOrder)
    ensures IsBlank(old(dialog.title)) ==> unchanged(board) && unchanged(dialog)
    ensures !IsBlank(old(dialog.title)) ==>
      && dialog.AtDefaults()
      && board.tasks == old(board.tasks) + [NewTask(Submission(old(dialog.title), old(dialog.description),
           old(dialog.status), old(dialog.priority), old(dialog.tags), old(dialog.assignedTo)).value,
           id, now, old(board.currentListId))]
    ensures !IsBlank(old(dialog.title)) ==>
      && |board.tasks| == |old(board.tasks)| + 1
      && board.tasks[..|old(board.tasks)|] == old(board.tasks)
      && board.tasks[|old(board.tasks)|].id == id
      && board.tasks[|old(board.tasks)|].listId == board.currentListId == old(board.currentListId)
      && board.tasks[|old(board.tasks)|].title == Trim(old(dialog.title))
      && !IsBlank(board.tasks[|old(board.tasks)|].title)
      && board.tasks[|old(board.tasks)|].tags == old(dialog.tags)
  {
    var sent := dialog.Submit();
    match sent {
      case None =>
      case Some(draft) =>
        board.AddTask(draft, id, now);
        assert board.tasks[..|old(board.tasks)|] == old(board.tasks);
    }
  }
}
