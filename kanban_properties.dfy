/**
 * What each action of `kanbanReducer` does to the board, stated about
 * `Reduce`: blank input is rejected, adds append one entry, replace-by-id
 * touches only matching entries, deletes remove exactly their targets, and
 * a move reorders exactly the columns it involves.
 */
module KanbanProperties {
  import opened Wrappers
  import opened Seqs
  import opened Text
  import opened Types
  import opened KanbanContext

  /** No two tasks share an id. */
  ghost predicate UniqueTaskIds(tasks: seq<Task>) {
    forall id :: |Filter(tasks, HasTaskId(id))| <= 1
  }

  /** With unique ids, the task `find` returns for an id is the one carrying it. */
  lemma FindUniqueTask(tasks: seq<Task>, t: Task)
    requires UniqueTaskIds(tasks) && t in tasks
    ensures Find(tasks, HasTaskId(t.id)) == Some(t)
  {
    var found := Find(tasks, HasTaskId(t.id));
    var matching := Filter(tasks, HasTaskId(t.id));
    assert t in matching;
    assert found.Some? && found.value in matching;
    assert |matching| <= 1;
    assert matching == [t] by {
      assert matching[0] == t by { assert t in matching; }
    }
  }

  // ----- Blank input -----

  /** The actions that carry user text. */
  predicate CarriesText(a: Action) {
    a.AddColumn? || a.RenameColumn? || a.AddTask? || a.UpdateTask? || a.AddComment? || a.UpdateComment?
  }

  /** The text an action is validated on: a title, or a comment's content. */
  function ActionText(a: Action): string
    requires CarriesText(a)
  {
    match a
    case AddColumn(title) => title
    case RenameColumn(_, title) => title
    case AddTask(title, _, _) => title
    case UpdateTask(task) => task.title
    case AddComment(_, content, _) => content
    case UpdateComment(_, content) => content
  }

  /** A title or comment that trims to nothing leaves the whole state as it was. */
  lemma BlankInputRejected(s: KanbanState, a: Action, freshId: Id)
    requires CarriesText(a) && Trim(ActionText(a)) == []
    ensures Reduce(s, a, freshId) == s
  {
    TrimEmptyIffBlank(ActionText(a));
  }

  // ----- Columns -----

  lemma AddColumnAppends(s: KanbanState, title: string, freshId: Id)
    requires !IsBlank(title)
    ensures var r := Reduce(s, AddColumn(title), freshId);
            && |r.columns| == |s.columns| + 1
            && r.columns[..|s.columns|] == s.columns
            && r.columns[|s.columns|] == Column(freshId, title)
            && r.tasks == s.tasks && r.selectedTaskId == s.selectedTaskId
  {
  }

  lemma RenameColumnReplacesMatching(s: KanbanState, id: Id, title: string)
    requires !IsBlank(title)
    ensures var r := Reduce(s, RenameColumn(id, title), "");
            && |r.columns| == |s.columns|
            && (forall i :: 0 <= i < |s.columns| ==>
                  && r.columns[i].id == s.columns[i].id
                  && r.columns[i].title == (if s.columns[i].id == id then title else s.columns[i].title))
            && ((forall c :: c in s.columns ==> c.id != id) ==> r == s)
            && r.tasks == s.tasks && r.selectedTaskId == s.selectedTaskId
  {
    var r := Reduce(s, RenameColumn(id, title), "");
    if forall c :: c in s.columns ==> c.id != id {
      assert r.columns == s.columns;
    }
  }

  /**
   * Deleting a column removes exactly the columns with that id and exactly
   * the tasks filed under it. The other columns keep their order: an id no
   * column carries changes nothing, and a single column carrying it is cut
   * out of its place. Every other column keeps its task list as
   * it was, and the selection is cleared exactly when the selected task
   * lay in the deleted column.
   */
  lemma DeleteColumnCascades(s: KanbanState, id: Id)
    requires UniqueTaskIds(s.tasks)
    ensures var r := Reduce(s, DeleteColumn(id), "");
            && (forall c :: c in r.columns <==> c in s.columns && c.id != id)
            && ((forall c :: c in s.columns ==> c.id != id) ==> r.columns == s.columns)
            && (forall j :: 0 <= j < |s.columns| && s.columns[j].id == id
                  && (forall k :: 0 <= k < |s.columns| && k != j ==> s.columns[k].id != id)
                  ==> r.columns == s.columns[..j] + s.columns[j + 1..])
            && (forall t :: t in r.tasks <==> t in s.tasks && t.columnId != id)
            && (forall c :: ColumnTasks(r.tasks, c) == if c == id then [] else ColumnTasks(s.tasks, c))
            && (r.selectedTaskId == None <==>
                  s.selectedTaskId == None
                  || exists t :: t in s.tasks && s.selectedTaskId == Some(t.id) && t.columnId == id)
            && (r.selectedTaskId != None ==> r.selectedTaskId == s.selectedTaskId)
  {
    var r := Reduce(s, DeleteColumn(id), "");
    ColumnsLeftInOrder(s.columns, id);
    TasksLeftInOrder(s.tasks, id);
    if t :| t in s.tasks && s.selectedTaskId == Some(t.id) && t.columnId == id {
      FindUniqueTask(s.tasks, t);
    }
  }

  lemma TasksLeftInOrder(tasks: seq<Task>, id: Id)
    ensures forall c :: ColumnTasks(Filter(tasks, NotInColumn(id)), c)
                        == if c == id then [] else ColumnTasks(tasks, c)
  {
    var kept := Filter(tasks, NotInColumn(id));
    forall c ensures ColumnTasks(kept, c) == if c == id then [] else ColumnTasks(tasks, c) {
      FilterCommute(tasks, NotInColumn(id), InColumn(c));
      if c == id {
        FilterNoneKept(kept, InColumn(c));
      } else {
        FilterAllMembersKept(ColumnTasks(tasks, c), NotInColumn(id));
      }
    }
  }

  lemma ColumnsLeftInOrder(columns: seq<Column>, id: Id)
    ensures var kept := Filter(columns, LacksColumnId(id));
            && ((forall c :: c in columns ==> c.id != id) ==> kept == columns)
            && (forall j :: 0 <= j < |columns| && columns[j].id == id
                  && (forall k :: 0 <= k < |columns| && k != j ==> columns[k].id != id)
                  ==> kept == columns[..j] + columns[j + 1..])
  {
    if forall c :: c in columns ==> c.id != id {
      FilterAllMembersKept(columns, LacksColumnId(id));
    }
    forall j | 0 <= j < |columns| && columns[j].id == id
                 && (forall k :: 0 <= k < |columns| && k != j ==> columns[k].id != id)
      ensures Filter(columns, LacksColumnId(id)) == columns[..j] + columns[j + 1..]
    {
      DropOnlyAt(columns, LacksColumnId(id), j);
    }
  }

  // ----- Tasks -----

  lemma AddTaskAppends(s: KanbanState, title: string, columnId: Id, description: Option<string>, freshId: Id)
    requires !IsBlank(title)
    ensures var r := Reduce(s, AddTask(title, columnId, description), freshId);
            var added := Task(freshId, title, description, columnId, []);
            && r.tasks == s.tasks + [added]
            && (forall c :: ColumnTasks(r.tasks, c)
                  == ColumnTasks(s.tasks, c) + (if c == columnId then [added] else []))
            && r.columns == s.columns && r.selectedTaskId == s.selectedTaskId
  {
    var added := Task(freshId, title, description, columnId, []);
    forall c
      ensures ColumnTasks(s.tasks + [added], c)
           == ColumnTasks(s.tasks, c) + (if c == columnId then [added] else [])
    {
      FilterConcat(s.tasks, [added], InColumn(c));
    }
  }

  lemma UpdateTaskReplacesMatching(s: KanbanState, task: Task)
    requires !IsBlank(task.title)
    ensures var r := Reduce(s, UpdateTask(task), "");
            && |r.tasks| == |s.tasks|
            && (forall i :: 0 <= i < |s.tasks| ==>
                  r.tasks[i] == if s.tasks[i].id == task.id then task else s.tasks[i])
            && (forall i :: 0 <= i < |s.tasks| ==> r.tasks[i].id == s.tasks[i].id)
            && ((forall t :: t in s.tasks ==> t.id != task.id) ==> r == s)
            && r.columns == s.columns && r.selectedTaskId == s.selectedTaskId
  {
    var r := Reduce(s, UpdateTask(task), "");
    if forall t :: t in s.tasks ==> t.id != task.id {
      assert r.tasks == s.tasks;
    }
  }

  /**
   * Deleting a task removes exactly the tasks with that id; each column
   * keeps the rest of its list in order, and the selection is cleared
   * exactly when it was that id.
   */
  lemma DeleteTaskRemovesExactly(s: KanbanState, id: Id)
    ensures var r := Reduce(s, DeleteTask(id), "");
            && (forall t :: t in r.tasks <==> t in s.tasks && t.id != id)
            && (forall c :: ColumnTasks(r.tasks, c) == Filter(ColumnTasks(s.tasks, c), LacksTaskId(id)))
            && (r.selectedTaskId == None <==> s.selectedTaskId == None || s.selectedTaskId == Some(id))
            && (r.selectedTaskId != None ==> r.selectedTaskId == s.selectedTaskId)
            && r.columns == s.columns
  {
    forall c
      ensures ColumnTasks(Filter(s.tasks, LacksTaskId(id)), c) == Filter(ColumnTasks(s.tasks, c), LacksTaskId(id))
    {
      FilterCommute(s.tasks, LacksTaskId(id), InColumn(c));
    }
  }

  // ----- Comments -----

  lemma AddCommentAppends(s: KanbanState, taskId: Id, content: string, parentId: Option<Id>, freshId: Id)
    requires !IsBlank(content)
    ensures var r := Reduce(s, AddComment(taskId, content, parentId), freshId);
            && |r.tasks| == |s.tasks|
            && (forall i :: 0 <= i < |s.tasks| && s.tasks[i].id != taskId ==> r.tasks[i] == s.tasks[i])
            && (forall i :: 0 <= i < |s.tasks| && s.tasks[i].id == taskId ==>
                  var before, after := s.tasks[i].comments, r.tasks[i].comments;
                  && r.tasks[i] == s.tasks[i].(comments := after)
                  && |after| == |before| + 1
                  && after[..|before|] == before
                  && after[|before|] == Comment(freshId, content, taskId, parentId))
            && r.columns == s.columns && r.selectedTaskId == s.selectedTaskId
  {
  }

  /**
   * Editing a comment changes only the content of comments with that id,
   * wherever they are; ids, owners and reply links stay, and an unknown id
   * leaves the board as it was.
   */
  lemma UpdateCommentReplacesMatching(s: KanbanState, id: Id, content: string)
    requires !IsBlank(content)
    ensures var r := Reduce(s, UpdateComment(id, content), "");
            && |r.tasks| == |s.tasks|
            && (forall i :: 0 <= i < |s.tasks| ==>
                  && r.tasks[i].(comments := []) == s.tasks[i].(comments := [])
                  && |r.tasks[i].comments| == |s.tasks[i].comments|
                  && forall j :: 0 <= j < |s.tasks[i].comments| ==>
                       var before, after := s.tasks[i].comments[j], r.tasks[i].comments[j];
                       && after.id == before.id
                       && after.taskId == before.taskId
                       && after.parentId == before.parentId
                       && after.content == (if before.id == id then content else before.content))
            && ((forall t, c :: t in s.tasks && c in t.comments ==> c.id != id) ==> r == s)
            && r.columns == s.columns && r.selectedTaskId == s.selectedTaskId
  {
    var r := Reduce(s, UpdateComment(id, content), "");
    if forall t, c :: t in s.tasks && c in t.comments ==> c.id != id {
      forall i | 0 <= i < |s.tasks| ensures r.tasks[i] == s.tasks[i] {
        var cs := s.tasks[i].comments;
        assert forall j :: 0 <= j < |cs| ==> cs[j] in s.tasks[i].comments;
        assert EditComments(cs, id, content) == cs;
      }
      assert r.tasks == s.tasks;
    }
  }

  /**
   * Deleting a comment removes the comments with that id from every task
   * and nothing else: replies to it stay, with their now dangling parent.
   */
  lemma DeleteCommentRemovesOnlyThatId(s: KanbanState, id: Id)
    ensures var r := Reduce(s, DeleteComment(id), "");
            && |r.tasks| == |s.tasks|
            && (forall i :: 0 <= i < |s.tasks| ==>
                  && r.tasks[i].(comments := []) == s.tasks[i].(comments := [])
                  && (forall c :: c in r.tasks[i].comments <==> c in s.tasks[i].comments && c.id != id)
                  && (forall c :: c in s.tasks[i].comments && c.parentId == Some(id) && c.id != id ==>
                        c in r.tasks[i].comments))
            && r.columns == s.columns && r.selectedTaskId == s.selectedTaskId
  {
  }

  // ----- Moving and selecting -----

  lemma MoveUnknownTaskIsNoOp(s: KanbanState, taskId: Id, targetColumnId: Id, targetIndex: int)
    requires forall t :: t in s.tasks ==> t.id != taskId
    ensures Reduce(s, MoveTask(taskId, targetColumnId, targetIndex), "") == s
  {
  }

  /**
   * SELECT_TASK stores any id, existing or not, and changes nothing else;
   * the later of two selections wins.
   */
  lemma SelectTaskOverwrites(s: KanbanState, first: Option<Id>, second: Option<Id>)
    ensures var r := Reduce(s, SelectTask(first), "");
            && r.selectedTaskId == first && r.columns == s.columns && r.tasks == s.tasks
            && Reduce(r, SelectTask(second), "") == Reduce(s, SelectTask(second), "")
  {
  }

  /** The board after a successful move: the other columns' tasks, then the target column's. */
  lemma MoveTaskShape(s: KanbanState, taskId: Id, targetColumnId: Id, targetIndex: int, task: Task)
    requires Find(s.tasks, HasTaskId(taskId)) == Some(task)
    ensures var rest := Filter(s.tasks, LacksTaskId(taskId));
            var r := Reduce(s, MoveTask(taskId, targetColumnId, targetIndex), "");
            && r.tasks == Filter(rest, NotInColumn(targetColumnId))
                          + Splice(Filter(rest, InColumn(targetColumnId)), targetIndex, task.(columnId := targetColumnId))
            && r.columns == s.columns
            && r.selectedTaskId == Some(taskId)
  {
    assert Reduce(s, MoveTask(taskId, targetColumnId, targetIndex), "")
        == ReduceMoveTask(s, taskId, targetColumnId, targetIndex);
  }

  lemma SpliceIntoColumn(rest: seq<Task>, columnId: Id, targetIndex: int, moved: Task)
    requires moved.columnId == columnId
    ensures var inColumn := Filter(rest, InColumn(columnId));
            var k := SpliceIndex(|inColumn|, targetIndex);
            ColumnTasks(Filter(rest, NotInColumn(columnId)) + Splice(inColumn, targetIndex, moved), columnId)
              == inColumn[..k] + [moved] + inColumn[k..]
  {
    var inColumn := Filter(rest, InColumn(columnId));
    var others := Filter(rest, NotInColumn(columnId));
    var k := SpliceIndex(|inColumn|, targetIndex);
    var spliced := Splice(inColumn, targetIndex, moved);
    assert spliced == Insert(inColumn, k, moved);
    FilterConcat(others, spliced, InColumn(columnId));
    FilterNoneKept(others, InColumn(columnId));
    FilterKeepsInserted(inColumn, k, moved, InColumn(columnId));
  }

  lemma SpliceLeavesColumn(rest: seq<Task>, columnId: Id, targetIndex: int, moved: Task, c: Id)
    requires moved.columnId == columnId && c != columnId
    ensures ColumnTasks(Filter(rest, NotInColumn(columnId)) + Splice(Filter(rest, InColumn(columnId)), targetIndex, moved), c)
         == ColumnTasks(rest, c)
  {
    var others := Filter(rest, NotInColumn(columnId));
    var spliced := Splice(Filter(rest, InColumn(columnId)), targetIndex, moved);
    FilterConcat(others, spliced, InColumn(c));
    FilterNoneKept(spliced, InColumn(c));
    FilterCommute(rest, NotInColumn(columnId), InColumn(c));
    FilterAllMembersKept(Filter(rest, InColumn(c)), NotInColumn(columnId));
  }

  /**
   * The target column's new list is its old list without the task, with
   * the re-homed task inserted where `splice` puts it: at `targetIndex`
   * when that is in range, at the end when it is larger, counted from the
   * end when it is negative.
   */
  lemma MoveTaskTargetColumn(s: KanbanState, taskId: Id, targetColumnId: Id, targetIndex: int, task: Task)
    requires Find(s.tasks, HasTaskId(taskId)) == Some(task)
    ensures var r := Reduce(s, MoveTask(taskId, targetColumnId, targetIndex), "");
            var remaining := Filter(ColumnTasks(s.tasks, targetColumnId), LacksTaskId(taskId));
            var k := SpliceIndex(|remaining|, targetIndex);
            ColumnTasks(r.tasks, targetColumnId)
              == remaining[..k] + [task.(columnId := targetColumnId)] + remaining[k..]
  {
    var rest := Filter(s.tasks, LacksTaskId(taskId));
    MoveTaskShape(s, taskId, targetColumnId, targetIndex, task);
    SpliceIntoColumn(rest, targetColumnId, targetIndex, task.(columnId := targetColumnId));
    FilterCommute(s.tasks, LacksTaskId(taskId), InColumn(targetColumnId));
  }

  /** Every other column keeps its list, minus the moved task, in the same order. */
  lemma MoveTaskOtherColumns(s: KanbanState, taskId: Id, targetColumnId: Id, targetIndex: int, task: Task, c: Id)
    requires Find(s.tasks, HasTaskId(taskId)) == Some(task)
    requires c != targetColumnId
    ensures var r := Reduce(s, MoveTask(taskId, targetColumnId, targetIndex), "");
            ColumnTasks(r.tasks, c) == Filter(ColumnTasks(s.tasks, c), LacksTaskId(taskId))
  {
    var rest := Filter(s.tasks, LacksTaskId(taskId));
    MoveTaskShape(s, taskId, targetColumnId, targetIndex, task);
    SpliceLeavesColumn(rest, targetColumnId, targetIndex, task.(columnId := targetColumnId), c);
    FilterCommute(s.tasks, LacksTaskId(taskId), InColumn(c));
  }

  /** After a move the re-homed task is the only task carrying its id. */
  lemma MovedTaskIsOnlyOne(s: KanbanState, taskId: Id, targetColumnId: Id, targetIndex: int, task: Task)
    requires Find(s.tasks, HasTaskId(taskId)) == Some(task)
    ensures var r := Reduce(s, MoveTask(taskId, targetColumnId, targetIndex), "");
            && task.(columnId := targetColumnId) in r.tasks
            && (forall t :: t in r.tasks && t.id == taskId ==> t == task.(columnId := targetColumnId))
            && forall t :: t in r.tasks ==> t in s.tasks || t == task.(columnId := targetColumnId)
  {
    var rest := Filter(s.tasks, LacksTaskId(taskId));
    var moved := task.(columnId := targetColumnId);
    var inColumn := Filter(rest, InColumn(targetColumnId));
    var spliced := Splice(inColumn, targetIndex, moved);
    MoveTaskShape(s, taskId, targetColumnId, targetIndex, task);
    assert spliced == Insert(inColumn, SpliceIndex(|inColumn|, targetIndex), moved);
    assert forall t :: t in spliced ==> t in inColumn || t == moved;
    assert forall t :: t in Filter(rest, NotInColumn(targetColumnId)) ==> t in rest;
  }

  /**
   * A successful move keeps the number of tasks (ids being unique), files
   * the task under the target column, and selects it.
   */
  lemma MoveTaskBasics(s: KanbanState, taskId: Id, targetColumnId: Id, targetIndex: int, task: Task)
    requires UniqueTaskIds(s.tasks)
    requires task in s.tasks && task.id == taskId
    ensures var r := Reduce(s, MoveTask(taskId, targetColumnId, targetIndex), "");
            && |r.tasks| == |s.tasks|
            && task.(columnId := targetColumnId) in r.tasks
            && (forall t :: t in r.tasks && t.id == taskId ==> t.columnId == targetColumnId)
            && r.selectedTaskId == Some(taskId)
            && r.columns == s.columns
  {
    FindUniqueTask(s.tasks, task);
    var rest := Filter(s.tasks, LacksTaskId(taskId));
    var inColumn := Filter(rest, InColumn(targetColumnId));
    MoveTaskShape(s, taskId, targetColumnId, targetIndex, task);
    MovedTaskIsOnlyOne(s, taskId, targetColumnId, targetIndex, task);
    FilterComplementLength(rest, NotInColumn(targetColumnId), InColumn(targetColumnId));
    FilterComplementLength(s.tasks, HasTaskId(taskId), LacksTaskId(taskId));
    assert task in Filter(s.tasks, HasTaskId(taskId));
  }

  /** Taking the moved task out again gives back the board without it. */
  lemma RemoveMovedAgain(others: seq<Task>, inColumn: seq<Task>, targetIndex: int, moved: Task)
    requires forall t :: t in others ==> t.id != moved.id
    requires forall t :: t in inColumn ==> t.id != moved.id
    ensures Filter(others + Splice(inColumn, targetIndex, moved), LacksTaskId(moved.id)) == others + inColumn
  {
    var k := SpliceIndex(|inColumn|, targetIndex);
    var spliced := Splice(inColumn, targetIndex, moved);
    assert spliced == Insert(inColumn, k, moved);
    FilterConcat(others, spliced, LacksTaskId(moved.id));
    FilterAllMembersKept(others, LacksTaskId(moved.id));
    FilterDropsInserted(inColumn, k, moved, LacksTaskId(moved.id));
  }

  /** Splitting a board laid out as other columns then one column gives back the two parts. */
  lemma SplitByColumn(others: seq<Task>, inColumn: seq<Task>, columnId: Id)
    requires forall t :: t in others ==> t.columnId != columnId
    requires forall t :: t in inColumn ==> t.columnId == columnId
    ensures Filter(others + inColumn, NotInColumn(columnId)) == others
    ensures Filter(others + inColumn, InColumn(columnId)) == inColumn
  {
    FilterConcat(others, inColumn, NotInColumn(columnId));
    FilterConcat(others, inColumn, InColumn(columnId));
    FilterAllMembersKept(others, NotInColumn(columnId));
    FilterNoneKept(inColumn, NotInColumn(columnId));
    FilterNoneKept(others, InColumn(columnId));
    FilterAllMembersKept(inColumn, InColumn(columnId));
  }

  /** Repeating a move is a no-op: the task already sits where the move puts it. */
  lemma MoveTaskIdempotent(s: KanbanState, taskId: Id, targetColumnId: Id, targetIndex: int)
    ensures var move := MoveTask(taskId, targetColumnId, targetIndex);
            Reduce(Reduce(s, move, ""), move, "") == Reduce(s, move, "")
  {
    var move := MoveTask(taskId, targetColumnId, targetIndex);
    match Find(s.tasks, HasTaskId(taskId))
    case None =>
    case Some(task) =>
      var r := Reduce(s, move, "");
      var rest := Filter(s.tasks, LacksTaskId(taskId));
      var moved := task.(columnId := targetColumnId);
      var others := Filter(rest, NotInColumn(targetColumnId));
      var inColumn := Filter(rest, InColumn(targetColumnId));
      MoveTaskShape(s, taskId, targetColumnId, targetIndex, task);
      MovedTaskIsOnlyOne(s, taskId, targetColumnId, targetIndex, task);
      var again := Find(r.tasks, HasTaskId(taskId));
      assert again == Some(moved);
      MoveTaskShape(r, taskId, targetColumnId, targetIndex, moved);
      RemoveMovedAgain(others, inColumn, targetIndex, moved);
      SplitByColumn(others, inColumn, targetColumnId);
  }
}
