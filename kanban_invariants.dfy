/**
 * The board's integrity conditions and which actions keep them.
 *
 * The reducer checks no foreign key: ADD_TASK takes any column id,
 * MOVE_TASK any target column, SELECT_TASK any id, and UPDATE_TASK any
 * replacement task. The conditions are therefore kept by every action
 * only when the payload's references are good (`RespectsReferences`) and
 * the generated id is new (`IsFresh`). That a reply's parent exists is not
 * one of them: DELETE_COMMENT leaves replies pointing at the deleted
 * comment, and ADD_COMMENT does not check the parent either.
 */
module KanbanInvariants {
  import opened Wrappers
  import opened Seqs
  import opened Text
  import opened Types
  import opened KanbanContext
  import opened KanbanProperties

  ghost predicate UniqueColumnIds(columns: seq<Column>) {
    forall id :: |Filter(columns, HasColumnId(id))| <= 1
  }

  ghost predicate UniqueCommentIds(comments: seq<Comment>) {
    forall id :: |Filter(comments, HasCommentId(id))| <= 1
  }

  predicate ColumnExists(columns: seq<Column>, id: Id) {
    exists c :: c in columns && c.id == id
  }

  predicate TaskExists(tasks: seq<Task>, id: Id) {
    exists t :: t in tasks && t.id == id
  }

  /** A task's comments name it as their task and carry distinct ids. */
  ghost predicate CommentsBelong(t: Task) {
    && (forall c :: c in t.comments ==> c.taskId == t.id)
    && UniqueCommentIds(t.comments)
  }

  /** The ids of a task's comments. */
  function CommentIds(t: Task): set<Id> {
    set c | c in t.comments :: c.id
  }

  /** No comment id is shared by two tasks; with `CommentsBelong`, comment ids are unique board-wide. */
  ghost predicate CommentIdsApart(tasks: seq<Task>) {
    forall t, u :: t in tasks && u in tasks && t.id != u.id ==> CommentIds(t) !! CommentIds(u)
  }

  /** Every task's column exists. */
  ghost predicate ColumnsResolve(s: KanbanState) {
    forall t :: t in s.tasks ==> ColumnExists(s.columns, t.columnId)
  }

  /** The selection, when set, names an existing task. */
  predicate SelectionResolves(s: KanbanState) {
    s.selectedTaskId.Some? ==> TaskExists(s.tasks, s.selectedTaskId.value)
  }

  ghost predicate Valid(s: KanbanState) {
    && UniqueColumnIds(s.columns)
    && UniqueTaskIds(s.tasks)
    && ColumnsResolve(s)
    && (forall t :: t in s.tasks ==> CommentsBelong(t))
    && CommentIdsApart(s.tasks)
    && SelectionResolves(s)
  }

  /** What `generateId()` is trusted to deliver: an id nothing on the board carries yet. */
  ghost predicate IsFresh(s: KanbanState, id: Id) {
    && !ColumnExists(s.columns, id)
    && !TaskExists(s.tasks, id)
    && forall t, c :: t in s.tasks && c in t.comments ==> c.id != id
  }

  /** The references a caller must get right, since the reducer takes them as given. */
  ghost predicate RespectsReferences(s: KanbanState, a: Action) {
    match a
    case AddTask(_, columnId, _) => ColumnExists(s.columns, columnId)
    case UpdateTask(task) =>
      TaskExists(s.tasks, task.id) ==>
        && ColumnExists(s.columns, task.columnId)
        && CommentsBelong(task)
        && forall u :: u in s.tasks && u.id != task.id ==> CommentIds(task) !! CommentIds(u)
    case MoveTask(taskId, targetColumnId, _) =>
      TaskExists(s.tasks, taskId) ==> ColumnExists(s.columns, targetColumnId)
    case SelectTask(selection) => selection.Some? ==> TaskExists(s.tasks, selection.value)
    case _ => true
  }

  // ----- Helpers: ids kept position by position -----

  lemma SameColumnIds(a: seq<Column>, b: seq<Column>)
    requires |a| == |b| && forall i :: 0 <= i < |a| ==> a[i].id == b[i].id
    ensures UniqueColumnIds(a) ==> UniqueColumnIds(b)
    ensures forall id :: ColumnExists(a, id) ==> ColumnExists(b, id)
  {
    forall id ensures |Filter(a, HasColumnId(id))| == |Filter(b, HasColumnId(id))| {
      FilterPointwise(a, b, HasColumnId(id), HasColumnId(id));
    }
    forall id | ColumnExists(a, id) ensures ColumnExists(b, id) {
      var c :| c in a && c.id == id;
      var i :| 0 <= i < |a| && a[i] == c;
      assert b[i] in b;
    }
  }

  lemma SameTaskIds(a: seq<Task>, b: seq<Task>)
    requires |a| == |b| && forall i :: 0 <= i < |a| ==> a[i].id == b[i].id
    ensures UniqueTaskIds(a) ==> UniqueTaskIds(b)
    ensures forall id :: TaskExists(a, id) ==> TaskExists(b, id)
  {
    forall id ensures |Filter(a, HasTaskId(id))| == |Filter(b, HasTaskId(id))| {
      FilterPointwise(a, b, HasTaskId(id), HasTaskId(id));
    }
    forall id | TaskExists(a, id) ensures TaskExists(b, id) {
      var t :| t in a && t.id == id;
      var i :| 0 <= i < |a| && a[i] == t;
      assert b[i] in b;
    }
  }

  /** Tasks that keep their ids position by position and lose comment ids only keep comment ids apart. */
  lemma ApartPointwise(a: seq<Task>, b: seq<Task>)
    requires |a| == |b|
    requires forall i :: 0 <= i < |a| ==> a[i].id == b[i].id && CommentIds(b[i]) <= CommentIds(a[i])
    requires CommentIdsApart(a)
    ensures CommentIdsApart(b)
  {
    forall t, u | t in b && u in b && t.id != u.id ensures CommentIds(t) !! CommentIds(u) {
      var i :| 0 <= i < |b| && b[i] == t;
      var j :| 0 <= j < |b| && b[j] == u;
      assert a[i] in a && a[j] in a;
    }
  }

  /** Comments that keep their ids position by position keep the task's comment ids. */
  lemma SameCommentIds(t: Task, t2: Task)
    requires |t.comments| == |t2.comments|
    requires forall j :: 0 <= j < |t.comments| ==> t.comments[j].id == t2.comments[j].id
    ensures CommentIds(t2) == CommentIds(t)
  {
    forall x | x in CommentIds(t2) ensures x in CommentIds(t) {
      var c :| c in t2.comments && c.id == x;
      var j :| 0 <= j < |t2.comments| && t2.comments[j] == c;
      assert t.comments[j] in t.comments;
    }
    forall x | x in CommentIds(t) ensures x in CommentIds(t2) {
      var c :| c in t.comments && c.id == x;
      var j :| 0 <= j < |t.comments| && t.comments[j] == c;
      assert t2.comments[j] in t2.comments;
    }
  }

  lemma AddCommentKeepsApart(s: KanbanState, taskId: Id, content: string, parentId: Option<Id>, freshId: Id)
    requires CommentIdsApart(s.tasks)
    requires forall t, c :: t in s.tasks && c in t.comments ==> c.id != freshId
    ensures CommentIdsApart(ReduceAddComment(s, taskId, content, parentId, freshId).tasks)
  {
    var r := ReduceAddComment(s, taskId, content, parentId, freshId);
    forall t, u | t in r.tasks && u in r.tasks && t.id != u.id ensures CommentIds(t) !! CommentIds(u) {
      var i :| 0 <= i < |r.tasks| && r.tasks[i] == t;
      var j :| 0 <= j < |r.tasks| && r.tasks[j] == u;
      var a, b := s.tasks[i], s.tasks[j];
      assert a in s.tasks && b in s.tasks;
      assert CommentIds(t) <= CommentIds(a) + {freshId};
      assert CommentIds(u) <= CommentIds(b) + {freshId};
    }
  }

  lemma UpdateCommentKeepsApart(s: KanbanState, id: Id, content: string)
    requires CommentIdsApart(s.tasks)
    ensures CommentIdsApart(ReduceUpdateComment(s, id, content).tasks)
  {
    var r := ReduceUpdateComment(s, id, content);
    forall i | 0 <= i < |s.tasks|
      ensures r.tasks[i].id == s.tasks[i].id && CommentIds(r.tasks[i]) <= CommentIds(s.tasks[i])
    {
      SameCommentIds(s.tasks[i], r.tasks[i]);
    }
    ApartPointwise(s.tasks, r.tasks);
  }

  lemma DeleteCommentKeepsApart(s: KanbanState, id: Id)
    requires CommentIdsApart(s.tasks)
    ensures CommentIdsApart(ReduceDeleteComment(s, id).tasks)
  {
    var r := ReduceDeleteComment(s, id);
    forall i | 0 <= i < |s.tasks|
      ensures r.tasks[i].id == s.tasks[i].id && CommentIds(r.tasks[i]) <= CommentIds(s.tasks[i])
    {
    }
    ApartPointwise(s.tasks, r.tasks);
  }

  lemma MoveTaskKeepsApart(s: KanbanState, taskId: Id, targetColumnId: Id, targetIndex: int)
    requires CommentIdsApart(s.tasks)
    ensures CommentIdsApart(ReduceMoveTask(s, taskId, targetColumnId, targetIndex).tasks)
  {
    var r := ReduceMoveTask(s, taskId, targetColumnId, targetIndex);
    match Find(s.tasks, HasTaskId(taskId))
    case None =>
    case Some(task) =>
      var rest := Filter(s.tasks, LacksTaskId(taskId));
      var moved := task.(columnId := targetColumnId);
      var inColumn := Filter(rest, InColumn(targetColumnId));
      assert Splice(inColumn, targetIndex, moved) == Insert(inColumn, SpliceIndex(|inColumn|, targetIndex), moved);
      assert forall t :: t in r.tasks ==> t in s.tasks || t == moved;
      assert CommentIds(moved) == CommentIds(task);
  }

  /** Appending an element whose id no element has keeps ids unique. */
  lemma AppendFreshColumn(columns: seq<Column>, c: Column)
    requires UniqueColumnIds(columns) && !ColumnExists(columns, c.id)
    ensures UniqueColumnIds(columns + [c])
  {
    forall id ensures |Filter(columns + [c], HasColumnId(id))| <= 1 {
      FilterConcat(columns, [c], HasColumnId(id));
      if id == c.id {
        FilterNoneKept(columns, HasColumnId(id));
      }
    }
  }

  lemma AppendFreshTask(tasks: seq<Task>, t: Task)
    requires UniqueTaskIds(tasks) && !TaskExists(tasks, t.id)
    ensures UniqueTaskIds(tasks + [t])
  {
    forall id ensures |Filter(tasks + [t], HasTaskId(id))| <= 1 {
      FilterConcat(tasks, [t], HasTaskId(id));
      if id == t.id {
        FilterNoneKept(tasks, HasTaskId(id));
      }
    }
  }

  lemma AppendFreshComment(comments: seq<Comment>, c: Comment)
    requires UniqueCommentIds(comments) && forall d :: d in comments ==> d.id != c.id
    ensures UniqueCommentIds(comments + [c])
  {
    forall id ensures |Filter(comments + [c], HasCommentId(id))| <= 1 {
      FilterConcat(comments, [c], HasCommentId(id));
      if id == c.id {
        FilterNoneKept(comments, HasCommentId(id));
      }
    }
  }

  // ----- One lemma per action -----

  lemma AddColumnKeepsValid(s: KanbanState, title: string, freshId: Id)
    requires Valid(s) && IsFresh(s, freshId)
    ensures Valid(Reduce(s, AddColumn(title), freshId))
  {
    var r := Reduce(s, AddColumn(title), freshId);
    if r != s {
      AppendFreshColumn(s.columns, Column(freshId, title));
      forall t | t in r.tasks ensures ColumnExists(r.columns, t.columnId) {
        var c :| c in s.columns && c.id == t.columnId;
        assert c in r.columns;
      }
    }
  }

  lemma RenameColumnKeepsValid(s: KanbanState, id: Id, title: string)
    requires Valid(s)
    ensures Valid(Reduce(s, RenameColumn(id, title), ""))
  {
    var r := Reduce(s, RenameColumn(id, title), "");
    SameColumnIds(s.columns, r.columns);
  }

  lemma DeleteColumnKeepsValid(s: KanbanState, id: Id)
    requires Valid(s)
    ensures Valid(Reduce(s, DeleteColumn(id), ""))
  {
    var r := Reduce(s, DeleteColumn(id), "");
    forall x ensures |Filter(r.columns, HasColumnId(x))| <= |Filter(s.columns, HasColumnId(x))| {
      FilterCountMonotone(s.columns, LacksColumnId(id), HasColumnId(x));
    }
    forall x ensures |Filter(r.tasks, HasTaskId(x))| <= |Filter(s.tasks, HasTaskId(x))| {
      FilterCountMonotone(s.tasks, NotInColumn(id), HasTaskId(x));
    }
    forall t | t in r.tasks ensures ColumnExists(r.columns, t.columnId) {
      var c :| c in s.columns && c.id == t.columnId;
      assert c in r.columns;
    }
    if r.selectedTaskId.Some? {
      var sel := s.selectedTaskId.value;
      var found := Find(s.tasks, HasTaskId(sel));
      assert found.Some? && found.value.columnId != id;
      assert found.value in r.tasks;
    }
  }

  lemma AddTaskKeepsValid(s: KanbanState, title: string, columnId: Id, description: Option<string>, freshId: Id)
    requires Valid(s) && IsFresh(s, freshId)
    requires RespectsReferences(s, AddTask(title, columnId, description))
    ensures Valid(Reduce(s, AddTask(title, columnId, description), freshId))
  {
    var r := Reduce(s, AddTask(title, columnId, description), freshId);
    if r != s {
      var added := Task(freshId, title, description, columnId, []);
      AppendFreshTask(s.tasks, added);
      assert UniqueCommentIds(added.comments);
      if s.selectedTaskId.Some? {
        var t :| t in s.tasks && t.id == s.selectedTaskId.value;
        assert t in r.tasks;
      }
    }
  }

  lemma UpdateTaskKeepsValid(s: KanbanState, task: Task)
    requires Valid(s) && RespectsReferences(s, UpdateTask(task))
    ensures Valid(Reduce(s, UpdateTask(task), ""))
  {
    var r := Reduce(s, UpdateTask(task), "");
    if r != s {
      SameTaskIds(s.tasks, r.tasks);
      forall t | t in r.tasks ensures ColumnExists(r.columns, t.columnId) && CommentsBelong(t) {
        var i :| 0 <= i < |r.tasks| && r.tasks[i] == t;
        if s.tasks[i].id == task.id {
          assert s.tasks[i] in s.tasks;
        } else {
          assert s.tasks[i] in s.tasks;
        }
      }
    }
  }

  lemma DeleteTaskKeepsValid(s: KanbanState, id: Id)
    requires Valid(s)
    ensures Valid(Reduce(s, DeleteTask(id), ""))
  {
    var r := Reduce(s, DeleteTask(id), "");
    forall x ensures |Filter(r.tasks, HasTaskId(x))| <= |Filter(s.tasks, HasTaskId(x))| {
      FilterCountMonotone(s.tasks, LacksTaskId(id), HasTaskId(x));
    }
    if r.selectedTaskId.Some? {
      var t :| t in s.tasks && t.id == s.selectedTaskId.value;
      assert t in r.tasks;
    }
  }

  lemma AddCommentKeepsValid(s: KanbanState, taskId: Id, content: string, parentId: Option<Id>, freshId: Id)
    requires Valid(s) && IsFresh(s, freshId)
    ensures Valid(Reduce(s, AddComment(taskId, content, parentId), freshId))
  {
    var r := Reduce(s, AddComment(taskId, content, parentId), freshId);
    AddCommentKeepsApart(s, taskId, content, parentId, freshId);
    if r != s {
      SameTaskIds(s.tasks, r.tasks);
      forall t | t in r.tasks ensures ColumnExists(r.columns, t.columnId) && CommentsBelong(t) {
        var i :| 0 <= i < |r.tasks| && r.tasks[i] == t;
        var old_t := s.tasks[i];
        assert old_t in s.tasks;
        if old_t.id == taskId {
          AppendFreshComment(old_t.comments, Comment(freshId, content, taskId, parentId));
        }
      }
    }
  }

  lemma UpdateCommentKeepsValid(s: KanbanState, id: Id, content: string)
    requires Valid(s)
    ensures Valid(Reduce(s, UpdateComment(id, content), ""))
  {
    var r := Reduce(s, UpdateComment(id, content), "");
    UpdateCommentKeepsApart(s, id, content);
    if r != s {
      SameTaskIds(s.tasks, r.tasks);
      forall t | t in r.tasks ensures ColumnExists(r.columns, t.columnId) && CommentsBelong(t) {
        var i :| 0 <= i < |r.tasks| && r.tasks[i] == t;
        var before := s.tasks[i].comments;
        assert s.tasks[i] in s.tasks;
        forall x ensures |Filter(t.comments, HasCommentId(x))| == |Filter(before, HasCommentId(x))| {
          FilterPointwise(t.comments, before, HasCommentId(x), HasCommentId(x));
        }
        forall c | c in t.comments ensures c.taskId == t.id {
          var j :| 0 <= j < |t.comments| && t.comments[j] == c;
          assert before[j] in before;
        }
      }
    }
  }

  lemma DeleteCommentKeepsValid(s: KanbanState, id: Id)
    requires Valid(s)
    ensures Valid(Reduce(s, DeleteComment(id), ""))
  {
    var r := Reduce(s, DeleteComment(id), "");
    DeleteCommentKeepsApart(s, id);
    SameTaskIds(s.tasks, r.tasks);
    forall t | t in r.tasks ensures ColumnExists(r.columns, t.columnId) && CommentsBelong(t) {
      var i :| 0 <= i < |r.tasks| && r.tasks[i] == t;
      var before := s.tasks[i].comments;
      assert s.tasks[i] in s.tasks;
      forall x ensures |Filter(t.comments, HasCommentId(x))| <= |Filter(before, HasCommentId(x))| {
        FilterCountMonotone(before, LacksCommentId(id), HasCommentId(x));
      }
    }
  }

  /** Splitting by column and splicing one task in counts every kind of task once more only for that task. */
  lemma SpliceCount(rest: seq<Task>, columnId: Id, targetIndex: int, moved: Task, p: Task -> bool)
    ensures |Filter(Filter(rest, NotInColumn(columnId)) + Splice(Filter(rest, InColumn(columnId)), targetIndex, moved), p)|
         == |Filter(rest, p)| + (if p(moved) then 1 else 0)
  {
    var others := Filter(rest, NotInColumn(columnId));
    var inColumn := Filter(rest, InColumn(columnId));
    var k := SpliceIndex(|inColumn|, targetIndex);
    var spliced := Splice(inColumn, targetIndex, moved);
    assert spliced == Insert(inColumn, k, moved);
    FilterConcat(others, spliced, p);
    FilterInsert(inColumn, k, moved, p);
    assert inColumn == inColumn[..k] + inColumn[k..];
    FilterConcat(inColumn[..k], inColumn[k..], p);
    FilterCommute(rest, NotInColumn(columnId), p);
    FilterCommute(rest, InColumn(columnId), p);
    FilterComplementLength(Filter(rest, p), NotInColumn(columnId), InColumn(columnId));
  }

  lemma MoveTaskKeepsUniqueIds(s: KanbanState, taskId: Id, targetColumnId: Id, targetIndex: int, task: Task)
    requires UniqueTaskIds(s.tasks) && Find(s.tasks, HasTaskId(taskId)) == Some(task)
    ensures UniqueTaskIds(Reduce(s, MoveTask(taskId, targetColumnId, targetIndex), "").tasks)
  {
    var r := Reduce(s, MoveTask(taskId, targetColumnId, targetIndex), "");
    var rest := Filter(s.tasks, LacksTaskId(taskId));
    var moved := task.(columnId := targetColumnId);
    MoveTaskShape(s, taskId, targetColumnId, targetIndex, task);
    forall x ensures |Filter(r.tasks, HasTaskId(x))| <= 1 {
      SpliceCount(rest, targetColumnId, targetIndex, moved, HasTaskId(x));
      if x == taskId {
        FilterNoneKept(rest, HasTaskId(x));
      } else {
        FilterCountMonotone(s.tasks, LacksTaskId(taskId), HasTaskId(x));
      }
    }
  }

  lemma MoveTaskKeepsValid(s: KanbanState, taskId: Id, targetColumnId: Id, targetIndex: int)
    requires Valid(s) && RespectsReferences(s, MoveTask(taskId, targetColumnId, targetIndex))
    ensures Valid(Reduce(s, MoveTask(taskId, targetColumnId, targetIndex), ""))
  {
    MoveTaskKeepsApart(s, taskId, targetColumnId, targetIndex);
    match Find(s.tasks, HasTaskId(taskId))
    case None =>
    case Some(task) =>
      MoveTaskKeepsUniqueIds(s, taskId, targetColumnId, targetIndex, task);
      MoveTaskShape(s, taskId, targetColumnId, targetIndex, task);
      MovedTaskIsOnlyOne(s, taskId, targetColumnId, targetIndex, task);
  }

  lemma SelectTaskKeepsValid(s: KanbanState, selection: Option<Id>)
    requires Valid(s) && RespectsReferences(s, SelectTask(selection))
    ensures Valid(Reduce(s, SelectTask(selection), ""))
  {
  }

  /** ADD_TASK does not check its column: a task added to a missing column dangles. */
  lemma AddTaskToMissingColumnDangles(s: KanbanState, title: string, columnId: Id, description: Option<string>, freshId: Id)
    requires !IsBlank(title) && !ColumnExists(s.columns, columnId)
    ensures !ColumnsResolve(Reduce(s, AddTask(title, columnId, description), freshId))
  {
    var r := Reduce(s, AddTask(title, columnId, description), freshId);
    assert Task(freshId, title, description, columnId, []) in r.tasks;
  }

  /**
   * Every action keeps the board's integrity conditions, given a fresh id
   * for the "add" actions and good references in the payload.
   */
  lemma ReducePreservesValid(s: KanbanState, a: Action, freshId: Id)
    requires Valid(s) && IsFresh(s, freshId) && RespectsReferences(s, a)
    ensures Valid(Reduce(s, a, freshId))
  {
    match a
    case AddColumn(title) => AddColumnKeepsValid(s, title, freshId);
    case RenameColumn(id, title) => RenameColumnKeepsValid(s, id, title);
    case DeleteColumn(id) => DeleteColumnKeepsValid(s, id);
    case AddTask(title, columnId, description) => AddTaskKeepsValid(s, title, columnId, description, freshId);
    case UpdateTask(task) => UpdateTaskKeepsValid(s, task);
    case DeleteTask(id) => DeleteTaskKeepsValid(s, id);
    case AddComment(taskId, content, parentId) => AddCommentKeepsValid(s, taskId, content, parentId, freshId);
    case UpdateComment(id, content) => UpdateCommentKeepsValid(s, id, content);
    case DeleteComment(id) => DeleteCommentKeepsValid(s, id);
    case MoveTask(taskId, targetColumnId, targetIndex) => MoveTaskKeepsValid(s, taskId, targetColumnId, targetIndex);
    case SelectTask(selection) => SelectTaskKeepsValid(s, selection);
  }
}
