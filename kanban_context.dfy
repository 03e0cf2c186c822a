/**
 * The board's state transition function, `kanbanReducer`: one pure
 * function per action kind, each building a new state from the old one
 * with append, replace-by-id and filter-by-id on its sequences.
 *
 * `generateId()` is not modelled; the identifier it would return is the
 * `freshId` argument of `Reduce`, used only by the three "add" actions.
 */
module KanbanContext {
  import opened Wrappers
  import opened Seqs
  import opened Text
  import opened Types

  /** The whole board: columns in display order, all tasks, and the keyboard selection. */
  datatype KanbanState = KanbanState(
    columns: seq<Column>,
    tasks: seq<Task>,
    selectedTaskId: Option<Id>)

  /** The eleven action kinds the reducer accepts, with their payloads. */
  datatype Action =
    | AddColumn(title: string)
    | RenameColumn(id: Id, title: string)
    | DeleteColumn(id: Id)
    | AddTask(title: string, columnId: Id, description: Option<string>)
    | UpdateTask(task: Task)
    | DeleteTask(id: Id)
    | AddComment(taskId: Id, content: string, parentId: Option<Id>)
    | UpdateComment(id: Id, content: string)
    | DeleteComment(id: Id)
    | MoveTask(taskId: Id, targetColumnId: Id, targetIndex: int)
    | SelectTask(selection: Option<Id>)

  // The predicates the reducer filters and searches with.

  function HasColumnId(id: Id): Column -> bool { (c: Column) => c.id == id }
  function LacksColumnId(id: Id): Column -> bool { (c: Column) => c.id != id }
  function HasTaskId(id: Id): Task -> bool { (t: Task) => t.id == id }
  function LacksTaskId(id: Id): Task -> bool { (t: Task) => t.id != id }
  function InColumn(columnId: Id): Task -> bool { (t: Task) => t.columnId == columnId }
  function NotInColumn(columnId: Id): Task -> bool { (t: Task) => t.columnId != columnId }
  function HasCommentId(id: Id): Comment -> bool { (c: Comment) => c.id == id }
  function LacksCommentId(id: Id): Comment -> bool { (c: Comment) => c.id != id }

  /** A column's tasks in display order: the board's tasks filtered by `columnId`. */
  function ColumnTasks(tasks: seq<Task>, columnId: Id): seq<Task> {
    Filter(tasks, InColumn(columnId))
  }

  function ReduceAddColumn(s: KanbanState, title: string, freshId: Id): KanbanState {
    if IsBlank(title) then s
    else s.(columns := s.columns + [Column(freshId, title)])
  }

  function ReduceRenameColumn(s: KanbanState, id: Id, title: string): KanbanState {
    if IsBlank(title) then s
    else
      s.(columns := seq(|s.columns|, i requires 0 <= i < |s.columns| =>
        if s.columns[i].id == id then s.columns[i].(title := title) else s.columns[i]))
  }

  /**
   * Deleting a column drops its tasks too. The selection is cleared when
   * the first task carrying the selected id lies in that column.
   */
  function ReduceDeleteColumn(s: KanbanState, id: Id): KanbanState {
    var selectedColumn :=
      match s.selectedTaskId
      case None => None
      case Some(sel) =>
        match Find(s.tasks, HasTaskId(sel))
        case None => None
        case Some(t) => Some(t.columnId);
    s.(columns := Filter(s.columns, LacksColumnId(id)),
       tasks := Filter(s.tasks, NotInColumn(id)),
       selectedTaskId := if selectedColumn == Some(id) then None else s.selectedTaskId)
  }

  function ReduceAddTask(s: KanbanState, title: string, columnId: Id, description: Option<string>, freshId: Id): KanbanState {
    if IsBlank(title) then s
    else s.(tasks := s.tasks + [Task(freshId, title, description, columnId, [])])
  }

  /** The payload replaces every task with its id, wholesale (column and comments included). */
  function ReduceUpdateTask(s: KanbanState, task: Task): KanbanState {
    if IsBlank(task.title) then s
    else
      s.(tasks := seq(|s.tasks|, i requires 0 <= i < |s.tasks| =>
        if s.tasks[i].id == task.id then task else s.tasks[i]))
  }

  function ReduceDeleteTask(s: KanbanState, id: Id): KanbanState {
    s.(tasks := Filter(s.tasks, LacksTaskId(id)),
       selectedTaskId := if s.selectedTaskId == Some(id) then None else s.selectedTaskId)
  }

  function ReduceAddComment(s: KanbanState, taskId: Id, content: string, parentId: Option<Id>, freshId: Id): KanbanState {
    if IsBlank(content) then s
    else
      s.(tasks := seq(|s.tasks|, i requires 0 <= i < |s.tasks| =>
        var t := s.tasks[i];
        if t.id == taskId then t.(comments := t.comments + [Comment(freshId, content, taskId, parentId)])
        else t))
  }

  /** The comments of one task with the content of those carrying `id` replaced. */
  function EditComments(comments: seq<Comment>, id: Id, content: string): seq<Comment> {
    seq(|comments|, j requires 0 <= j < |comments| =>
      if comments[j].id == id then comments[j].(content := content) else comments[j])
  }

  function ReduceUpdateComment(s: KanbanState, id: Id, content: string): KanbanState {
    if IsBlank(content) then s
    else
      s.(tasks := seq(|s.tasks|, i requires 0 <= i < |s.tasks| =>
        s.tasks[i].(comments := EditComments(s.tasks[i].comments, id, content))))
  }

  function ReduceDeleteComment(s: KanbanState, id: Id): KanbanState {
    s.(tasks := seq(|s.tasks|, i requires 0 <= i < |s.tasks| =>
      s.tasks[i].(comments := Filter(s.tasks[i].comments, LacksCommentId(id)))))
  }

  /**
   * Moving a task: take it out of the board, re-home it, splice it into
   * the target column's list, and rebuild the board as the other columns'
   * tasks followed by the target column's.
   */
  function ReduceMoveTask(s: KanbanState, taskId: Id, targetColumnId: Id, targetIndex: int): KanbanState {
    match Find(s.tasks, HasTaskId(taskId))
    case None => s
    case Some(task) =>
      var rest := Filter(s.tasks, LacksTaskId(taskId));
      var moved := task.(columnId := targetColumnId);
      var target := Splice(Filter(rest, InColumn(targetColumnId)), targetIndex, moved);
      var others := Filter(rest, NotInColumn(targetColumnId));
      s.(tasks := others + target, selectedTaskId := Some(taskId))
  }

  function ReduceSelectTask(s: KanbanState, selection: Option<Id>): KanbanState {
    s.(selectedTaskId := selection)
  }

  /** `kanbanReducer`; `freshId` stands for the `generateId()` result an "add" action uses. */
  function Reduce(s: KanbanState, a: Action, freshId: Id): KanbanState {
    match a
    case AddColumn(title) => ReduceAddColumn(s, title, freshId)
    case RenameColumn(id, title) => ReduceRenameColumn(s, id, title)
    case DeleteColumn(id) => ReduceDeleteColumn(s, id)
    case AddTask(title, columnId, description) => ReduceAddTask(s, title, columnId, description, freshId)
    case UpdateTask(task) => ReduceUpdateTask(s, task)
    case DeleteTask(id) => ReduceDeleteTask(s, id)
    case AddComment(taskId, content, parentId) => ReduceAddComment(s, taskId, content, parentId, freshId)
    case UpdateComment(id, content) => ReduceUpdateComment(s, id, content)
    case DeleteComment(id) => ReduceDeleteComment(s, id)
    case MoveTask(taskId, targetColumnId, targetIndex) => ReduceMoveTask(s, taskId, targetColumnId, targetIndex)
    case SelectTask(selection) => ReduceSelectTask(s, selection)
  }
}
