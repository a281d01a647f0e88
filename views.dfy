/**
 * The derived views of the board (frontend/src/App.tsx): the current board's
 * tasks, split into the three status columns, each sorted by `sortTasks`.
 *
 * `sortTasks` copies its argument and calls `Array.prototype.sort` with the
 * comparator `dateB - dateA` (newest first) or `dateA - dateB` (oldest
 * first). That sort is stable, so the result is the stable sort by
 * `createdAt`; `SortTasks` computes it by insertion.
 */
module Views {
  import opened Seqs
  import opened Kanban

  datatype SortOrder = Newest | Oldest

  /** The comparator does not put `b` strictly before `a`. */
  predicate InOrder(order: SortOrder, a: Task, b: Task)
  {
    match order
    case Newest => a.createdAt >= b.createdAt
    case Oldest => a.createdAt <= b.createdAt
  }

  predicate SortedBy(order: SortOrder, s: seq<Task>)
  {
    forall i, j :: 0 <= i < j < |s| ==> InOrder(order, s[i], s[j])
  }

  /** Puts `x` in front of the first element it may precede; equal timestamps keep `x` first. */
  function Insert(order: SortOrder, x: Task, s: seq<Task>): (r: seq<Task>)
    requires SortedBy(order, s)
    ensures multiset(r) == multiset(s) + multiset{x}
    ensures SortedBy(order, r)
  {
    if s == [] then [x]
    else if InOrder(order, x, s[0]) then
      PrependSorted(order, x, s);
      [x] + s
    else
      var rest := Insert(order, x, s[1..]);
      InsertBehindHead(order, x, s, rest);
      [s[0]] + rest
  }

  /** A task that may precede the head of a sorted sequence may precede all of it. */
  lemma PrependSorted(order: SortOrder, x: Task, s: seq<Task>)
    requires SortedBy(order, s) && s != [] && InOrder(order, x, s[0])
    ensures SortedBy(order, [x] + s)
  {
    var r := [x] + s;
    forall i, j | 0 <= i < j < |r| ensures InOrder(order, r[i], r[j]) {
      if i == 0 && j > 1 {
        assert InOrder(order, s[0], s[j - 1]);
      }
    }
  }

  /** A task that may precede every element of a sorted sequence may go in front of it. */
  lemma ConsSorted(order: SortOrder, h: Task, s: seq<Task>)
    requires SortedBy(order, s)
    requires forall j :: 0 <= j < |s| ==> InOrder(order, h, s[j])
    ensures SortedBy(order, [h] + s)
  {
    var r := [h] + s;
    forall i, j | 0 <= i < j < |r| ensures InOrder(order, r[i], r[j]) {
      assert r[j] == s[j - 1];
      if i > 0 {
        assert r[i] == s[i - 1];
      }
    }
  }

  /** The head of a sorted sequence may precede every element of its tail. */
  lemma HeadPrecedesTail(order: SortOrder, s: seq<Task>, y: Task)
    requires SortedBy(order, s) && s != [] && y in multiset(s[1..])
    ensures InOrder(order, s[0], y)
  {
    var m :| 0 <= m < |s| - 1 && s[1..][m] == y;
    assert s[m + 1] == y;
  }

  /**
   * When `x` goes behind the head, the head may precede everything the
   * recursive insertion returns, so the result stays sorted.
   */
  lemma InsertBehindHead(order: SortOrder, x: Task, s: seq<Task>, rest: seq<Task>)
    requires SortedBy(order, s) && s != [] && !InOrder(order, x, s[0])
    requires SortedBy(order, rest) && multiset(rest) == multiset(s[1..]) + multiset{x}
    ensures SortedBy(order, [s[0]] + rest)
    ensures multiset([s[0]] + rest) == multiset(s) + multiset{x}
  {
    assert s == [s[0]] + s[1..];
    forall j | 0 <= j < |rest| ensures InOrder(order, s[0], rest[j]) {
      assert rest[j] in multiset(rest);
      if rest[j] != x {
        HeadPrecedesTail(order, s, rest[j]);
      }
    }
    ConsSorted(order, s[0], rest);
  }

  /** `sortTasks`: a stable sort by `createdAt` in the chosen order. */
  function SortTasks(order: SortOrder, s: seq<Task>): (r: seq<Task>)
    ensures multiset(r) == multiset(s)
    ensures SortedBy(order, r)
  {
    if s == [] then []
    else
      assert s == [s[0]] + s[1..];
      Insert(order, s[0], SortTasks(order, s[1..]))
  }

  function CreatedAtIs(k: int): Task -> bool
  {
    (t: Task) => t.createdAt == k
  }

  lemma {:induction false} InsertStable(order: SortOrder, x: Task, s: seq<Task>, k: int)
    requires SortedBy(order, s)
    ensures Filter(CreatedAtIs(k), Insert(order, x, s)) == Filter(CreatedAtIs(k), [x] + s)
  {
    if s != [] && !InOrder(order, x, s[0]) {
      InsertStable(order, x, s[1..], k);
      FilterConcat(CreatedAtIs(k), [s[0]], Insert(order, x, s[1..]));
      FilterConcat(CreatedAtIs(k), [x], s[1..]);
      FilterConcat(CreatedAtIs(k), [s[0]], [x] + s[1..]);
      FilterConcat(CreatedAtIs(k), [x], s);
      assert s == [s[0]] + s[1..];
      FilterConcat(CreatedAtIs(k), [s[0]], s[1..]);
    }
  }

  /**
   * The sort is stable: the tasks that share any one timestamp come out in
   * the order they had before sorting.
   */
  lemma {:induction false} SortStable(order: SortOrder, s: seq<Task>, k: int)
    ensures Filter(CreatedAtIs(k), SortTasks(order, s)) == Filter(CreatedAtIs(k), s)
  {
    if s != [] {
      var p, t := CreatedAtIs(k), SortTasks(order, s[1..]);
      assert SortTasks(order, s) == Insert(order, s[0], t);
      SortStable(order, s[1..], k);
      InsertStable(order, s[0], t, k);
      FilterConcat(p, [s[0]], t);
      assert s == [s[0]] + s[1..];
      FilterConcat(p, [s[0]], s[1..]);
    }
  }

  /** No two different tasks share a timestamp. */
  predicate TimestampsDistinct(s: seq<Task>)
  {
    forall a, b :: a in s && b in s && a.createdAt == b.createdAt ==> a == b
  }

  /** Two oldest-first orderings of the same tasks with distinct timestamps start alike. */
  lemma OldestFirstSameHead(a: seq<Task>, b: seq<Task>)
    requires SortedBy(Oldest, a) && SortedBy(Oldest, b)
    requires multiset(a) == multiset(b) && TimestampsDistinct(a) && a != []
    ensures b != [] && a[0] == b[0]
  {
    assert a[0] in multiset(b);
    var j :| 0 <= j < |b| && b[j] == a[0];
    assert b[0] in multiset(a);
    var i :| 0 <= i < |a| && a[i] == b[0];
    if i != 0 {
      assert InOrder(Oldest, a[0], a[i]);
    }
    if j != 0 {
      assert InOrder(Oldest, b[0], b[j]);
    }
    assert a[i] in a && a[0] in a;
  }

  /** Dropping the head of two orderings with the same head keeps what the induction needs. */
  lemma OldestFirstTails(a: seq<Task>, b: seq<Task>)
    requires SortedBy(Oldest, a) && SortedBy(Oldest, b)
    requires multiset(a) == multiset(b) && TimestampsDistinct(a)
    requires a != [] && b != [] && a[0] == b[0]
    ensures SortedBy(Oldest, a[1..]) && SortedBy(Oldest, b[1..])
    ensures multiset(a[1..]) == multiset(b[1..]) && TimestampsDistinct(a[1..])
  {
    SortedTail(Oldest, a);
    SortedTail(Oldest, b);
    assert a == [a[0]] + a[1..] && b == [b[0]] + b[1..];
    assert multiset(a[1..]) == multiset(a) - multiset{a[0]};
    assert multiset(b[1..]) == multiset(b) - multiset{b[0]};
    forall x | x in a[1..] ensures x in a {
    }
  }

  lemma SortedTail(order: SortOrder, s: seq<Task>)
    requires SortedBy(order, s) && s != []
    ensures SortedBy(order, s[1..])
  {
    forall i, j | 0 <= i < j < |s| - 1 ensures InOrder(order, s[1..][i], s[1..][j]) {
      assert s[1..][i] == s[i + 1] && s[1..][j] == s[j + 1];
    }
  }

  /** Two oldest-first orderings of the same tasks with distinct timestamps are equal. */
  lemma {:induction false} OldestFirstIsUnique(a: seq<Task>, b: seq<Task>)
    requires SortedBy(Oldest, a) && SortedBy(Oldest, b)
    requires multiset(a) == multiset(b) && TimestampsDistinct(a)
    ensures a == b
  {
    if a == [] {
      assert |b| == |multiset(b)| == 0;
    } else {
      OldestFirstSameHead(a, b);
      OldestFirstTails(a, b);
      OldestFirstIsUnique(a[1..], b[1..]);
      assert a == [a[0]] + a[1..] && b == [b[0]] + b[1..];
    }
  }

  /**
   * For tasks with distinct timestamps, "oldest first" is exactly the
   * reverse of "newest first".
   */
  lemma NewestIsReversedOldest(s: seq<Task>)
    requires TimestampsDistinct(s)
    ensures SortTasks(Oldest, s) == Reverse(SortTasks(Newest, s))
  {
    var n := SortTasks(Newest, s);
    var b := Reverse(n);
    ReverseMultiset(n);
    assert SortedBy(Oldest, b) by {
      forall i, j | 0 <= i < j < |b| ensures InOrder(Oldest, b[i], b[j]) {
        assert InOrder(Newest, n[|n| - 1 - j], n[|n| - 1 - i]);
      }
    }
    var a := SortTasks(Oldest, s);
    assert TimestampsDistinct(a) by {
      forall x | x in a ensures x in s {
        assert x in multiset(a);
      }
    }
    OldestFirstIsUnique(a, b);
  }

  function HasStatus(status: Status): Task -> bool
  {
    (t: Task) => t.status == status
  }

  /**
   * One column of the board: `sortTasks(currentTasks.filter(task =>
   * task.status === status))`.
   */
  function Column(order: SortOrder, tasks: seq<Task>, listId: Id, status: Status): (r: seq<Task>)
    ensures SortedBy(order, r)
    ensures multiset(r) == multiset(Filter(HasStatus(status), TasksOfList(tasks, listId)))
  {
    SortTasks(order, Filter(HasStatus(status), TasksOfList(tasks, listId)))
  }

  /** A column holds exactly the current board's tasks with its status. */
  lemma ColumnMembers(order: SortOrder, tasks: seq<Task>, listId: Id, status: Status)
    ensures forall t :: t in Column(order, tasks, listId, status) <==> t in tasks && t.listId == listId && t.status == status
  {
    var c := TasksOfList(tasks, listId);
    var f := Filter(HasStatus(status), c);
    forall t ensures t in Column(order, tasks, listId, status) <==> t in f {
      assert t in Column(order, tasks, listId, status) <==> t in multiset(f);
    }
  }

  /** Every task of a board has exactly one of the three statuses, so it is counted in one column. */
  lemma StatusCounts(c: seq<Task>, x: Task)
    ensures multiset(Filter(HasStatus(Todo), c))[x]
          + multiset(Filter(HasStatus(InProgress), c))[x]
          + multiset(Filter(HasStatus(Done), c))[x]
         == multiset(c)[x]
  {
    FilterCount(HasStatus(Todo), c, x);
    FilterCount(HasStatus(InProgress), c, x);
    FilterCount(HasStatus(Done), c, x);
  }

  /** The three columns together hold every task of the current board, each exactly once. */
  lemma ColumnsPartition(order: SortOrder, tasks: seq<Task>, listId: Id)
    ensures multiset(Column(order, tasks, listId, Todo))
          + multiset(Column(order, tasks, listId, InProgress))
          + multiset(Column(order, tasks, listId, Done))
         == multiset(TasksOfList(tasks, listId))
  {
    var c := TasksOfList(tasks, listId);
    forall x
      ensures multiset(Filter(HasStatus(Todo), c))[x]
            + multiset(Filter(HasStatus(InProgress), c))[x]
            + multiset(Filter(HasStatus(Done), c))[x]
           == multiset(c)[x]
    {
      StatusCounts(c, x);
    }
  }

  /**
   * Two tasks of one board, both to do, the first older: moving the first
   * to done changes only its status, and the to-do column then holds only
   * the second.
   */
  lemma MoveScenario(order: SortOrder, t1: Task, t2: Task)
    requires t1.id != t2.id && t1.listId == t2.listId
    requires t1.status == Todo && t2.status == Todo && t1.createdAt < t2.createdAt
    ensures WithTaskMoved([t1, t2], t1.id, Done) == [t1.(status := Done), t2]
    ensures Column(order, WithTaskMoved([t1, t2], t1.id, Done), t1.listId, Todo) == [t2]
    ensures Column(order, WithTaskMoved([t1, t2], t1.id, Done), t1.listId, Done) == [t1.(status := Done)]
  {
    var m := t1.(status := Done);
    var r := WithTaskMoved([t1, t2], t1.id, Done);
    assert r == [m, t2];
    assert r[1..] == [t2] && r[1..][1..] == [];
    assert Filter(ListIdIs(t1.listId), [t2]) == [t2];
    assert TasksOfList(r, t1.listId) == r;
    assert Filter(HasStatus(Todo), r) == [t2];
    assert Filter(HasStatus(Done), r) == [m];
    assert SortTasks(order, [t2]) == [t2];
    assert SortTasks(order, [m]) == [m];
  }
}
