/**
 * The records of the kanban board (frontend/src/App.tsx) and the new values
 * its handlers compute from the old ones with `map`, `filter` and spread.
 * The App component that holds these values is the class `App.Board`; the
 * functions here are what its methods assign, and the lemmas state what the
 * handlers promise about them.
 */
module Kanban {
  import opened Wrappers
  import opened Seqs

  /** Identifiers are strings (`Date.now().toString()` or the seeded '1', '2', '3'). */
  type Id = string

  datatype Status = Todo | InProgress | Done

  datatype Priority = Low | Medium | High

  /** `createdAt` is a `Date`; only its millisecond value is ever used, so it is an `int`. */
  datatype Task = Task(
    id: Id,
    title: string,
    description: string,
    status: Status,
    priority: Priority,
    tags: seq<string>,
    assignedTo: Option<Id>,
    createdAt: int,
    listId: Id)

  datatype TodoList = TodoList(id: Id, name: string, icon: string, color: string)

  datatype User = User(id: Id, name: string, color: string)

  /** `Omit<Task, 'id' | 'createdAt' | 'listId'>`: what the new-task dialog hands to the board. */
  datatype TaskDraft = TaskDraft(
    title: string,
    description: string,
    status: Status,
    priority: Priority,
    tags: seq<string>,
    assignedTo: Option<Id>)

  /** `Omit<User, 'id'>`: what the user dialog hands to the board. */
  datatype UserDraft = UserDraft(name: string, color: string)

  /** `{ ...newTask, id, createdAt, listId }` */
  function NewTask(d: TaskDraft, id: Id, createdAt: int, listId: Id): Task
  {
    Task(id, d.title, d.description, d.status, d.priority, d.tags, d.assignedTo, createdAt, listId)
  }

  /** `{ ...userData, id }` */
  function NewUser(d: UserDraft, id: Id): User
  {
    User(id, d.name, d.color)
  }

  function TaskIds(tasks: seq<Task>): set<Id>
  {
    set t | t in tasks :: t.id
  }

  function ListIds(lists: seq<TodoList>): set<Id>
  {
    set l | l in lists :: l.id
  }

  function UserIds(users: seq<User>): set<Id>
  {
    set u | u in users :: u.id
  }

  predicate DistinctTaskIds(tasks: seq<Task>)
  {
    forall i, j :: 0 <= i < j < |tasks| ==> tasks[i].id != tasks[j].id
  }

  predicate DistinctListIds(lists: seq<TodoList>)
  {
    forall i, j :: 0 <= i < j < |lists| ==> lists[i].id != lists[j].id
  }

  predicate DistinctUserIds(users: seq<User>)
  {
    forall i, j :: 0 <= i < j < |users| ==> users[i].id != users[j].id
  }

  /** Every task belongs to a list that exists. */
  predicate ListRefsValid(tasks: seq<Task>, lists: seq<TodoList>)
  {
    forall t :: t in tasks ==> t.listId in ListIds(lists)
  }

  /** Every assigned task names a user that exists. */
  predicate UserRefsValid(tasks: seq<Task>, users: seq<User>)
  {
    forall t :: t in tasks && t.assignedTo.Some? ==> t.assignedTo.value in UserIds(users)
  }

  // ---------------------------------------------------------------- tasks

  function IdIsNot(id: Id): Task -> bool
  {
    (t: Task) => t.id != id
  }

  /** `tasks.filter(task => task.id !== taskId)` */
  function WithoutTask(tasks: seq<Task>, id: Id): (r: seq<Task>)
    ensures |r| <= |tasks|
    ensures forall t :: t in r <==> t in tasks && t.id != id
  {
    Filter(IdIsNot(id), tasks)
  }

  /** `tasks.map(task => task.id === updatedTask.id ? updatedTask : task)` */
  function WithTaskReplaced(tasks: seq<Task>, u: Task): (r: seq<Task>)
    ensures |r| == |tasks|
    ensures forall i :: 0 <= i < |tasks| ==> r[i].id == tasks[i].id
    ensures forall i :: 0 <= i < |tasks| && tasks[i].id == u.id ==> r[i] == u
    ensures forall i :: 0 <= i < |tasks| && tasks[i].id != u.id ==> r[i] == tasks[i]
  {
    seq(|tasks|, i requires 0 <= i < |tasks| => if tasks[i].id == u.id then u else tasks[i])
  }

  /** `tasks.map(task => task.id === taskId ? { ...task, status: newStatus } : task)` */
  function WithTaskMoved(tasks: seq<Task>, id: Id, status: Status): (r: seq<Task>)
    ensures |r| == |tasks|
    ensures forall i :: 0 <= i < |tasks| ==> r[i].(status := tasks[i].status) == tasks[i]
    ensures forall i :: 0 <= i < |tasks| ==>
      r[i].status == if tasks[i].id == id then status else tasks[i].status
  {
    seq(|tasks|, i requires 0 <= i < |tasks| =>
      if tasks[i].id == id then tasks[i].(status := status) else tasks[i])
  }

  /** Deleting the task just added, under a fresh id, gives back the tasks before the add. */
  lemma DeleteUndoesAdd(tasks: seq<Task>, t: Task)
    requires t.id !in TaskIds(tasks)
    ensures WithoutTask(tasks + [t], t.id) == tasks
  {
    FilterConcat(IdIsNot(t.id), tasks, [t]);
    FilterKeepsAll(IdIsNot(t.id), tasks);
  }

  /** Adding a task under a fresh id keeps task ids distinct. */
  lemma AddKeepsTaskIdsDistinct(tasks: seq<Task>, t: Task)
    requires DistinctTaskIds(tasks) && t.id !in TaskIds(tasks)
    ensures DistinctTaskIds(tasks + [t])
  {
    forall i, j | 0 <= i < j < |tasks| + 1
      ensures (tasks + [t])[i].id != (tasks + [t])[j].id
    {
      if j == |tasks| {
        assert tasks[i] in tasks;
      }
    }
  }

  /**
   * Deleting removes exactly the tasks with that id and keeps the others in
   * order; with distinct ids that is one task, cut out of its position.
   */
  lemma DeleteTaskRemovesOne(tasks: seq<Task>, k: nat)
    requires DistinctTaskIds(tasks) && k < |tasks|
    ensures WithoutTask(tasks, tasks[k].id) == tasks[..k] + tasks[k + 1..]
  {
    FilterRejectsOne(IdIsNot(tasks[k].id), tasks, k);
  }

  /** Deleting an id that no task has changes nothing. */
  lemma DeleteMissingTask(tasks: seq<Task>, id: Id)
    requires id !in TaskIds(tasks)
    ensures WithoutTask(tasks, id) == tasks
  {
    FilterKeepsAll(IdIsNot(id), tasks);
  }

  /** An update whose id no task has is a no-op. */
  lemma UpdateMissingTask(tasks: seq<Task>, u: Task)
    requires u.id !in TaskIds(tasks)
    ensures WithTaskReplaced(tasks, u) == tasks
  {
    forall i | 0 <= i < |tasks| ensures WithTaskReplaced(tasks, u)[i] == tasks[i] {
      assert tasks[i] in tasks;
    }
  }

  /**
   * With distinct ids, an update replaces the one matching record verbatim
   * (the whole record, not a patch) and leaves every other position alone.
   */
  lemma UpdateReplacesOne(tasks: seq<Task>, u: Task, k: nat)
    requires DistinctTaskIds(tasks) && k < |tasks| && tasks[k].id == u.id
    ensures WithTaskReplaced(tasks, u) == tasks[k := u]
  {
  }

  /** An update keeps the set of ids, so it keeps them distinct. */
  lemma UpdateKeepsTaskIds(tasks: seq<Task>, u: Task)
    ensures TaskIds(WithTaskReplaced(tasks, u)) == TaskIds(tasks)
    ensures DistinctTaskIds(tasks) ==> DistinctTaskIds(WithTaskReplaced(tasks, u))
  {
    var r := WithTaskReplaced(tasks, u);
    forall x | x in TaskIds(r) ensures x in TaskIds(tasks) {
      var i :| 0 <= i < |r| && r[i].id == x;
      assert tasks[i] in tasks;
    }
    forall x | x in TaskIds(tasks) ensures x in TaskIds(r) {
      var i :| 0 <= i < |tasks| && tasks[i].id == x;
      assert r[i] in r;
    }
  }

  /** Moving twice is moving once, to the second status. */
  lemma MoveTwice(tasks: seq<Task>, id: Id, s1: Status, s2: Status)
    ensures WithTaskMoved(WithTaskMoved(tasks, id, s1), id, s2) == WithTaskMoved(tasks, id, s2)
  {
  }

  /** Moving a task back to its former status undoes the move. */
  lemma MoveBack(tasks: seq<Task>, k: nat, s: Status)
    requires DistinctTaskIds(tasks) && k < |tasks|
    ensures WithTaskMoved(WithTaskMoved(tasks, tasks[k].id, s), tasks[k].id, tasks[k].status) == tasks
  {
    var r := WithTaskMoved(WithTaskMoved(tasks, tasks[k].id, s), tasks[k].id, tasks[k].status);
    forall i | 0 <= i < |tasks| ensures r[i] == tasks[i] {
    }
  }

  // ---------------------------------------------------------------- lists

  function ListIdIsNot(id: Id): TodoList -> bool
  {
    (l: TodoList) => l.id != id
  }

  function ListIdIsNotIn(id: Id): Task -> bool
  {
    (t: Task) => t.listId != id
  }

  function ListIdIs(id: Id): Task -> bool
  {
    (t: Task) => t.listId == id
  }

  /** `lists.filter(list => list.id !== listId)` */
  function WithoutList(lists: seq<TodoList>, id: Id): (r: seq<TodoList>)
    ensures |r| <= |lists|
    ensures forall l :: l in r <==> l in lists && l.id != id
  {
    Filter(ListIdIsNot(id), lists)
  }

  /** `tasks.filter(task => task.listId !== listId)`: the cascade of a list deletion. */
  function WithoutListTasks(tasks: seq<Task>, listId: Id): (r: seq<Task>)
    ensures |r| <= |tasks|
    ensures forall t :: t in r <==> t in tasks && t.listId != listId
  {
    Filter(ListIdIsNotIn(listId), tasks)
  }

  /** `tasks.filter(task => task.listId === currentListId)`: the tasks of one board. */
  function TasksOfList(tasks: seq<Task>, listId: Id): (r: seq<Task>)
    ensures |r| <= |tasks|
    ensures forall t :: t in r <==> t in tasks && t.listId == listId
  {
    Filter(ListIdIs(listId), tasks)
  }

  /** `lists.find(list => list.id !== listId)` */
  function FirstOtherList(lists: seq<TodoList>, id: Id): (r: Option<TodoList>)
    ensures r.Some? ==> r.value in lists && r.value.id != id
    ensures r.None? ==> forall l :: l in lists ==> l.id == id
  {
    if lists == [] then None
    else if lists[0].id != id then Some(lists[0])
    else FirstOtherList(lists[1..], id)
  }

  /**
   * `lists.find(list => list.id !== listId)?.id || lists[0].id`: the list that
   * becomes current when the current one is deleted. JavaScript's `||` also
   * falls back to `lists[0].id` when the list found has the empty id.
   */
  function NextCurrentListId(lists: seq<TodoList>, deleted: Id): (r: Id)
    requires |lists| > 0
    ensures r in ListIds(lists)
    ensures (forall l :: l in lists ==> l.id == deleted) ==> r == lists[0].id
  {
    match FirstOtherList(lists, deleted)
    case Some(l) => if l.id != "" then l.id else lists[0].id
    case None => lists[0].id
  }

  /** `find` returns the first list, in order, whose id differs. */
  lemma {:induction false} FirstOtherListAt(lists: seq<TodoList>, id: Id, k: nat)
    requires k < |lists| && lists[k].id != id
    requires forall j :: 0 <= j < k ==> lists[j].id == id
    ensures FirstOtherList(lists, id) == Some(lists[k])
  {
    if k > 0 {
      assert lists[0].id == id;
      forall j | 0 <= j < k - 1 ensures lists[1..][j].id == id {
        assert lists[1..][j] == lists[j + 1];
      }
      FirstOtherListAt(lists[1..], id, k - 1);
    }
  }

  /**
   * When the current list is deleted, the next current id is the id of the
   * first other list, or `lists[0].id` when that id is empty.
   */
  lemma NextCurrentPicksFirstOther(lists: seq<TodoList>, deleted: Id, k: nat)
    requires k < |lists| && lists[k].id != deleted
    requires forall j :: 0 <= j < k ==> lists[j].id == deleted
    ensures NextCurrentListId(lists, deleted) == if lists[k].id != "" then lists[k].id else lists[0].id
  {
    FirstOtherListAt(lists, deleted, k);
  }

  /**
   * The invariant of the board's list state: the collection is never empty,
   * ids are distinct and non-empty, and the current list id names a list.
   */
  predicate ListsValid(lists: seq<TodoList>, current: Id)
  {
    && |lists| > 0
    && DistinctListIds(lists)
    && (forall l :: l in lists ==> l.id != "")
    && current in ListIds(lists)
  }

  /** With distinct ids, deleting a list removes at most the one list with that id. */
  lemma DeleteListShape(lists: seq<TodoList>, id: Id)
    requires DistinctListIds(lists)
    ensures id !in ListIds(lists) ==> WithoutList(lists, id) == lists
    ensures id in ListIds(lists) ==>
      exists k :: 0 <= k < |lists| && lists[k].id == id && WithoutList(lists, id) == lists[..k] + lists[k + 1..]
  {
    if id in ListIds(lists) {
      var k :| 0 <= k < |lists| && lists[k].id == id;
      FilterRejectsOne(ListIdIsNot(id), lists, k);
    } else {
      FilterKeepsAll(ListIdIsNot(id), lists);
    }
  }

  /** Cutting one list out keeps the remaining ids distinct. */
  lemma CutListKeepsDistinct(lists: seq<TodoList>, k: nat)
    requires DistinctListIds(lists) && k < |lists|
    ensures DistinctListIds(lists[..k] + lists[k + 1..])
  {
    var r := lists[..k] + lists[k + 1..];
    forall i | 0 <= i < |r| ensures r[i] == lists[if i < k then i else i + 1] {
    }
    forall i, j | 0 <= i < j < |r| ensures r[i].id != r[j].id {
      var i', j' := if i < k then i else i + 1, if j < k then j else j + 1;
      assert r[i] == lists[i'] && r[j] == lists[j'];
    }
  }

  /** Deleting a list keeps the remaining ids distinct. */
  lemma DeleteListKeepsDistinct(lists: seq<TodoList>, id: Id)
    requires DistinctListIds(lists)
    ensures DistinctListIds(WithoutList(lists, id))
  {
    DeleteListShape(lists, id);
    if id in ListIds(lists) {
      var k :| 0 <= k < |lists| && lists[k].id == id && WithoutList(lists, id) == lists[..k] + lists[k + 1..];
      CutListKeepsDistinct(lists, k);
    }
  }

  /** Deleting a list keeps every other listed id. */
  lemma DeleteListKeepsOther(lists: seq<TodoList>, id: Id, other: Id)
    requires other != id && other in ListIds(lists)
    ensures other in ListIds(WithoutList(lists, id))
  {
    var l :| l in lists && l.id == other;
    assert l in WithoutList(lists, id);
  }

  /**
   * Deleting a list when more than one exists keeps the list state valid: at
   * least one list remains, and the next current id (the old one, or the one
   * `NextCurrentListId` picks when the current list was deleted) names a
   * remaining list.
   */
  lemma DeleteListKeepsValid(lists: seq<TodoList>, current: Id, id: Id)
    requires ListsValid(lists, current) && |lists| > 1
    ensures ListsValid(WithoutList(lists, id), if current == id then NextCurrentListId(lists, id) else current)
  {
    var next := if current == id then NextCurrentListId(lists, id) else current;
    if current == id {
      var other := if lists[0].id != id then lists[0] else lists[1];
      assert other in lists;
      assert next != id;
    }
    DeleteListKeepsDistinct(lists, id);
    DeleteListKeepsOther(lists, id, next);
  }

  /** Adding a list under a fresh non-empty id and making it current keeps the list state valid. */
  lemma AddListKeepsValid(lists: seq<TodoList>, current: Id, l: TodoList)
    requires ListsValid(lists, current) && l.id != "" && l.id !in ListIds(lists)
    ensures ListsValid(lists + [l], l.id)
  {
    var r := lists + [l];
    forall i, j | 0 <= i < j < |r| ensures r[i].id != r[j].id {
      if j == |lists| {
        assert lists[i] in lists;
      }
    }
    assert l in r;
  }

  /** After the cascade the deleted board has no tasks left, and no other board has lost one. */
  lemma CascadeRemovesAll(tasks: seq<Task>, listId: Id)
    ensures TasksOfList(WithoutListTasks(tasks, listId), listId) == []
    ensures |WithoutListTasks(tasks, listId)| + |TasksOfList(tasks, listId)| == |tasks|
  {
    FilterKeepsNone(ListIdIs(listId), WithoutListTasks(tasks, listId));
    CascadeSplits(tasks, listId);
  }

  /** The cascade and the board's own tasks split the tasks between them. */
  lemma {:induction false} CascadeSplits(tasks: seq<Task>, listId: Id)
    ensures |WithoutListTasks(tasks, listId)| + |TasksOfList(tasks, listId)| == |tasks|
  {
    if tasks != [] {
      CascadeSplits(tasks[1..], listId);
    }
  }

  /** The cascade leaves every other board's tasks exactly as they were, in order. */
  lemma CascadeKeepsOtherBoards(tasks: seq<Task>, deleted: Id, other: Id)
    requires other != deleted
    ensures TasksOfList(WithoutListTasks(tasks, deleted), other) == TasksOfList(tasks, other)
  {
    FilterCommutes(ListIdIs(other), ListIdIsNotIn(deleted), tasks);
    FilterKeepsAll(ListIdIsNotIn(deleted), TasksOfList(tasks, other));
  }

  /** Deleting a list together with its tasks keeps every task's list reference valid. */
  lemma CascadeKeepsListRefs(tasks: seq<Task>, lists: seq<TodoList>, id: Id)
    requires ListRefsValid(tasks, lists)
    ensures ListRefsValid(WithoutListTasks(tasks, id), WithoutList(lists, id))
  {
    var rl := WithoutList(lists, id);
    forall t | t in WithoutListTasks(tasks, id) ensures t.listId in ListIds(rl) {
      var l :| l in lists && l.id == t.listId;
      assert l in rl;
    }
  }

  // ---------------------------------------------------------------- users

  function UserIdIsNot(id: Id): User -> bool
  {
    (u: User) => u.id != id
  }

  /** `users.filter(user => user.id !== userId)` */
  function WithoutUser(users: seq<User>, id: Id): (r: seq<User>)
    ensures |r| <= |users|
    ensures forall u :: u in r <==> u in users && u.id != id
  {
    Filter(UserIdIsNot(id), users)
  }

  /** `users.map(user => user.id === updatedUser.id ? updatedUser : user)` */
  function WithUserReplaced(users: seq<User>, u: User): (r: seq<User>)
    ensures |r| == |users|
    ensures forall i :: 0 <= i < |users| ==> r[i].id == users[i].id
    ensures forall i :: 0 <= i < |users| && users[i].id == u.id ==> r[i] == u
    ensures forall i :: 0 <= i < |users| && users[i].id != u.id ==> r[i] == users[i]
  {
    seq(|users|, i requires 0 <= i < |users| => if users[i].id == u.id then u else users[i])
  }

  /** `tasks.map(task => task.assignedTo === userId ? { ...task, assignedTo: undefined } : task)` */
  function WithUserUnassigned(tasks: seq<Task>, userId: Id): (r: seq<Task>)
    ensures |r| == |tasks|
    ensures forall i :: 0 <= i < |tasks| ==> r[i].(assignedTo := tasks[i].assignedTo) == tasks[i]
    ensures forall i :: 0 <= i < |tasks| ==> r[i].assignedTo != Some(userId)
    ensures forall i :: 0 <= i < |tasks| && tasks[i].assignedTo == Some(userId) ==> r[i].assignedTo == None
    ensures forall i :: 0 <= i < |tasks| && tasks[i].assignedTo != Some(userId) ==> r[i] == tasks[i]
  {
    seq(|tasks|, i requires 0 <= i < |tasks| =>
      if tasks[i].assignedTo == Some(userId) then tasks[i].(assignedTo := None) else tasks[i])
  }

  /** With distinct ids, deleting a present user removes exactly that user: the count drops by one. */
  lemma DeleteUserRemovesOne(users: seq<User>, k: nat)
    requires DistinctUserIds(users) && k < |users|
    ensures WithoutUser(users, users[k].id) == users[..k] + users[k + 1..]
    ensures |WithoutUser(users, users[k].id)| == |users| - 1
  {
    FilterRejectsOne(UserIdIsNot(users[k].id), users, k);
  }

  /** With distinct ids, a user update replaces the one matching record and nothing else. */
  lemma UpdateReplacesOneUser(users: seq<User>, u: User, k: nat)
    requires DistinctUserIds(users) && k < |users| && users[k].id == u.id
    ensures WithUserReplaced(users, u) == users[k := u]
  {
  }

  /** An update of a user nobody has is a no-op. */
  lemma UpdateMissingUser(users: seq<User>, u: User)
    requires u.id !in UserIds(users)
    ensures WithUserReplaced(users, u) == users
  {
    forall i | 0 <= i < |users| ensures WithUserReplaced(users, u)[i] == users[i] {
      assert users[i] in users;
    }
  }

  /** Deleting a user and clearing its assignments keeps every assignment valid. */
  lemma DeleteUserKeepsUserRefs(tasks: seq<Task>, users: seq<User>, id: Id)
    requires UserRefsValid(tasks, users)
    ensures UserRefsValid(WithUserUnassigned(tasks, id), WithoutUser(users, id))
  {
    var rt := WithUserUnassigned(tasks, id);
    var ru := WithoutUser(users, id);
    forall t | t in rt && t.assignedTo.Some? ensures t.assignedTo.value in UserIds(ru) {
      var i :| 0 <= i < |rt| && rt[i] == t;
      assert tasks[i] in tasks;
      var u :| u in users && u.id == t.assignedTo.value;
      assert u in ru;
    }
  }
}
