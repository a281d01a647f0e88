/**
 * The edit dialog of a task card (frontend/src/components/TaskCard.tsx): a
 * copy `editedTask` of the card's task, changed field by field by the
 * dialog's controls, and the tag input. Saving hands the copy to the board's
 * update handler; cancelling only closes the dialog and keeps the edits.
 */
module TaskCard {
  import opened Wrappers
  import opened Kanban
  import opened TaskForm

  /** The fields no control of the dialog can change. */
  predicate SameIdentity(a: Task, b: Task)
  {
    a.id == b.id && a.createdAt == b.createdAt && a.listId == b.listId
  }

  class TaskEditor {
    /** The card's `task` prop, which `editedTask` starts from. */
    const task: Task
    var editedTask: Task
    var tagInput: string
    var isEditDialogOpen: bool

    /** Whatever has been edited, the copy is still the same task of the same board. */
    ghost predicate Valid()
      reads this
    {
      SameIdentity(task, editedTask)
    }

    constructor (task: Task)
      ensures Valid()
      ensures this.task == task && editedTask == task && tagInput == "" && !isEditDialogOpen
    {
      this.task := task;
      editedTask := task;
      tagInput := "";
      isEditDialogOpen := false;
    }

    /** The Edit menu item. */
    method Open()
      requires Valid()
      modifies this`isEditDialogOpen
      ensures Valid() && isEditDialogOpen
    {
      isEditDialogOpen := true;
    }

    /** The Cancel button: closes the dialog; the edits stay in `editedTask`. */
    method Cancel()
      requires Valid()
      modifies this`isEditDialogOpen
      ensures Valid() && !isEditDialogOpen
    {
      isEditDialogOpen := false;
    }

    method SetTitle(value: string)
      requires Valid()
      modifies this`editedTask
      ensures Valid() && editedTask == old(editedTask).(title := value)
    {
      editedTask := editedTask.(title := value);
    }

    method SetDescription(value: string)
      requires Valid()
      modifies this`editedTask
      ensures Valid() && editedTask == old(editedTask).(description := value)
    {
      editedTask := editedTask.(description := value);
    }

    method SetPriority(value: Priority)
      requires Valid()
      modifies this`editedTask
      ensures Valid() && editedTask == old(editedTask).(priority := value)
    {
      editedTask := editedTask.(priority := value);
    }

    method SetStatus(value: Status)
      requires Valid()
      modifies this`editedTask
      ensures Valid() && editedTask == old(editedTask).(status := value)
    {
      editedTask := editedTask.(status := value);
    }

    /** The assignee selector: 'unassigned' clears the assignee, any other value is stored as the user id. */
    method SelectAssignee(value: string)
      requires Valid()
      modifies this`editedTask
      ensures Valid() && editedTask == old(editedTask).(assignedTo := AssigneeOf(value))
      ensures value == "unassigned" ==> editedTask.assignedTo == None
      ensures value != "unassigned" ==> editedTask.assignedTo == Some(value)
    {
      editedTask := editedTask.(assignedTo := AssigneeOf(value));
    }

    method SetTagInput(value: string)
      requires Valid()
      modifies this`tagInput
      ensures Valid() && tagInput == value
    {
      tagInput := value;
    }

    /** `handleAddTag`, from the Add button or Enter in the tag input. */
    method AddTag()
      requires Valid()
      modifies this`editedTask, this`tagInput
      ensures Valid()
      ensures editedTask == old(editedTask).(tags := WithTag(old(editedTask.tags), old(tagInput)))
      ensures tagInput == TagInputAfterAdd(old(editedTask.tags), old(tagInput))
    {
      if AddsTag(editedTask.tags, tagInput) {
        editedTask := editedTask.(tags := WithTag(editedTask.tags, tagInput));
        tagInput := "";
      }
    }

    /** `handleRemoveTag` */
    method RemoveTag(tag: string)
      requires Valid()
      modifies this`editedTask
      ensures Valid()
      ensures editedTask == old(editedTask).(tags := WithoutTag(old(editedTask.tags), tag))
    {
      editedTask := editedTask.(tags := WithoutTag(editedTask.tags, tag));
    }

    /**
     * `handleSaveEdit`: the record passed to `onUpdate` is the edited copy,
     * still carrying the task's id, creation time and board.
     */
    method SaveEdit() returns (updated: Task)
      requires Valid()
      modifies this`isEditDialogOpen
      ensures Valid() && !isEditDialogOpen
      ensures updated == editedTask
      ensures updated.id == task.id && updated.createdAt == task.createdAt && updated.listId == task.listId
    {
      updated := editedTask;
      isEditDialogOpen := false;
    }
  }
}
