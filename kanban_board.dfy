/**
 * The board view's two ways of moving a card: dropping it after a drag,
 * and the arrow keys acting on the selected card. Both only work out the
 * payload of a MOVE_TASK action; the reducer does the move.
 *
 * The drag library's rectangle geometry is reduced to one boolean: whether
 * the dragged card's top edge lies above the top edge of the card it is
 * dropped on (`isDraggingDown`).
 */
module KanbanBoard {
  import opened Wrappers
  import opened Seqs
  import opened Types
  import opened KanbanContext
  import opened KanbanProperties
  import opened KanbanInvariants

  /** The payload of a MOVE_TASK dispatch. */
  datatype Move = Move(taskId: Id, targetColumnId: Id, targetIndex: int)

  function AsAction(m: Move): Action {
    MoveTask(m.taskId, m.targetColumnId, m.targetIndex)
  }

  // The `KeyboardEvent.key` values the board reacts to; every other key is ignored.
  const ArrowUp := "ArrowUp"
  const ArrowDown := "ArrowDown"
  const ArrowLeft := "ArrowLeft"
  const ArrowRight := "ArrowRight"

  /**
   * `handleDragEnd`: nothing when the card was dropped on nothing or on an
   * id that is neither a column nor a task. A column id wins over a task
   * id: the card goes to the end of that column. On a task, the card goes
   * to that task's position in its column, one further when dragging down.
   */
  function DragEnd(s: KanbanState, activeId: Id, over: Option<Id>, isDraggingDown: bool): (r: Option<Move>)
    ensures r.None? <==> over.None? || (!ColumnExists(s.columns, over.value) && !TaskExists(s.tasks, over.value))
    ensures r.Some? ==> r.value.taskId == activeId && 0 <= r.value.targetIndex
  {
    match over
    case None => None
    case Some(overId) =>
      var isOverColumn := ColumnExists(s.columns, overId);
      var isOverTask := TaskExists(s.tasks, overId);
      if !isOverColumn && !isOverTask then None
      else if isOverColumn then
        Some(Move(activeId, overId, |ColumnTasks(s.tasks, overId)|))
      else
        var overTask := Find(s.tasks, HasTaskId(overId)).value;
        var columnTasks := ColumnTasks(s.tasks, overTask.columnId);
        var overIndex := FindIndex(columnTasks, HasTaskId(overId));
        assert overTask in columnTasks;
        Some(Move(activeId, overTask.columnId, if isDraggingDown then overIndex + 1 else overIndex))
  }

  /**
   * `handleKeyDown`: with a card selected, the up and down arrows move it
   * one place within its column, and the left and right arrows move it to
   * the end of the neighbouring column in display order.
   */
  function KeyMove(s: KanbanState, key: string): (r: Option<Move>)
    ensures r.Some? ==> s.selectedTaskId.Some? && s.selectedTaskId.value != ""
                        && r.value.taskId == s.selectedTaskId.value
    ensures key != ArrowUp && key != ArrowDown && key != ArrowLeft && key != ArrowRight ==> r.None?
  {
    match s.selectedTaskId
    case None => None
    case Some(selected) =>
      if selected == "" then None
      else match Find(s.tasks, HasTaskId(selected))
        case None => None
        case Some(task) =>
          var columnId := task.columnId;
          var columnTasks := ColumnTasks(s.tasks, columnId);
          var index := FindIndex(columnTasks, HasTaskId(task.id));
          var columnIndex := FindIndex(s.columns, HasColumnId(columnId));
          if key == ArrowUp then
            if index > 0 then Some(Move(task.id, columnId, index - 1)) else None
          else if key == ArrowDown then
            if index < |columnTasks| - 1 then Some(Move(task.id, columnId, index + 1)) else None
          else if key == ArrowLeft then
            if columnIndex > 0 then
              var target := s.columns[columnIndex - 1].id;
              Some(Move(task.id, target, |ColumnTasks(s.tasks, target)|))
            else None
          else if key == ArrowRight then
            if columnIndex < |s.columns| - 1 then
              var target := s.columns[columnIndex + 1].id;
              Some(Move(task.id, target, |ColumnTasks(s.tasks, target)|))
            else None
          else None
  }

  /** `s` with the neighbours at `i` and `i + 1` exchanged. */
  function SwapAdjacent<T>(s: seq<T>, i: nat): (r: seq<T>)
    requires i + 1 < |s|
    ensures |r| == |s| && r[i] == s[i + 1] && r[i + 1] == s[i]
    ensures forall j :: 0 <= j < |s| && j != i && j != i + 1 ==> r[j] == s[j]
  {
    s[..i] + [s[i + 1], s[i]] + s[i + 2..]
  }

  // ----- Helpers -----

  /** With unique ids, a task with the same id as a board task is that task. */
  lemma SameIdSameTask(tasks: seq<Task>, t: Task, u: Task)
    requires UniqueTaskIds(tasks) && t in tasks && u in tasks && t.id == u.id
    ensures t == u
  {
    FindUniqueTask(tasks, t);
    FindUniqueTask(tasks, u);
  }

  /** A task's position in its own column's list. */
  lemma PositionInColumn(tasks: seq<Task>, t: Task)
    requires UniqueTaskIds(tasks) && t in tasks
    ensures var col := ColumnTasks(tasks, t.columnId);
            var i := FindIndex(col, HasTaskId(t.id));
            && 0 <= i < |col| && col[i] == t
            && forall j :: 0 <= j < |col| && j != i ==> col[j].id != t.id
  {
    var col := ColumnTasks(tasks, t.columnId);
    assert InColumn(t.columnId)(t) && t in Filter(tasks, InColumn(t.columnId));
    var i := FindIndex(col, HasTaskId(t.id));
    assert HasTaskId(t.id)(t) && col[i] in col && col[i] in tasks;
    SameIdSameTask(tasks, t, col[i]);
    FilterCountMonotone(tasks, InColumn(t.columnId), HasTaskId(t.id));
    OnlyKeptAt(col, HasTaskId(t.id), i);
  }

  /** A column that does not hold the task loses nothing when the task's id is filtered out. */
  lemma OtherColumnUntouched(tasks: seq<Task>, t: Task, c: Id)
    requires UniqueTaskIds(tasks) && t in tasks && c != t.columnId
    ensures Filter(ColumnTasks(tasks, c), LacksTaskId(t.id)) == ColumnTasks(tasks, c)
  {
    forall u | u in ColumnTasks(tasks, c) ensures LacksTaskId(t.id)(u) {
      if u.id == t.id {
        SameIdSameTask(tasks, t, u);
      }
    }
    FilterAllMembersKept(ColumnTasks(tasks, c), LacksTaskId(t.id));
  }

  /** Moving a task to the end of another column: appended there, dropped from its own. */
  lemma MoveToOtherColumnEnd(s: KanbanState, t: Task, target: Id)
    requires UniqueTaskIds(s.tasks) && t in s.tasks && target != t.columnId
    ensures var r := Reduce(s, MoveTask(t.id, target, |ColumnTasks(s.tasks, target)|), "");
            && ColumnTasks(r.tasks, target) == ColumnTasks(s.tasks, target) + [t.(columnId := target)]
            && ColumnTasks(r.tasks, t.columnId) == Filter(ColumnTasks(s.tasks, t.columnId), LacksTaskId(t.id))
  {
    var old_col := ColumnTasks(s.tasks, target);
    FindUniqueTask(s.tasks, t);
    OtherColumnUntouched(s.tasks, t, target);
    MoveTaskTargetColumn(s, t.id, target, |old_col|, t);
    MoveTaskOtherColumns(s, t.id, target, |old_col|, t, t.columnId);
    assert old_col[..|old_col|] == old_col && old_col[|old_col|..] == [];
  }

  /**
   * Moving a task to the position it already holds in its own column
   * leaves every column's list as it was.
   */
  lemma MoveTaskInPlace(s: KanbanState, t: Task)
    requires UniqueTaskIds(s.tasks) && t in s.tasks
    ensures var j := FindIndex(ColumnTasks(s.tasks, t.columnId), HasTaskId(t.id));
            var r := Reduce(s, MoveTask(t.id, t.columnId, j), "");
            forall c :: ColumnTasks(r.tasks, c) == ColumnTasks(s.tasks, c)
  {
    var col := ColumnTasks(s.tasks, t.columnId);
    var j := FindIndex(col, HasTaskId(t.id));
    var r := Reduce(s, MoveTask(t.id, t.columnId, j), "");
    FindUniqueTask(s.tasks, t);
    PositionInColumn(s.tasks, t);
    forall c ensures ColumnTasks(r.tasks, c) == ColumnTasks(s.tasks, c) {
      if c == t.columnId {
        InsertBackAt(s, t, j);
      } else {
        MoveTaskOtherColumns(s, t.id, t.columnId, j, t, c);
        OtherColumnUntouched(s.tasks, t, c);
      }
    }
  }

  /** Moving a task within its own column takes it out of the list and splices it back in. */
  lemma MoveWithinOwnColumn(s: KanbanState, t: Task, k: int)
    requires UniqueTaskIds(s.tasks) && t in s.tasks
    ensures var col := ColumnTasks(s.tasks, t.columnId);
            var i := FindIndex(col, HasTaskId(t.id));
            && 0 <= i < |col| && col[i] == t
            && var remaining := col[..i] + col[i + 1..];
               var at := SpliceIndex(|remaining|, k);
               ColumnTasks(Reduce(s, MoveTask(t.id, t.columnId, k), "").tasks, t.columnId)
               == remaining[..at] + [t] + remaining[at..]
  {
    var col := ColumnTasks(s.tasks, t.columnId);
    var i := FindIndex(col, HasTaskId(t.id));
    FindUniqueTask(s.tasks, t);
    PositionInColumn(s.tasks, t);
    DropOnlyAt(col, LacksTaskId(t.id), i);
    MoveTaskTargetColumn(s, t.id, t.columnId, k, t);
    assert t.(columnId := t.columnId) == t;
  }

  lemma InsertBackAt(s: KanbanState, t: Task, j: nat)
    requires UniqueTaskIds(s.tasks) && t in s.tasks
    requires j == FindIndex(ColumnTasks(s.tasks, t.columnId), HasTaskId(t.id))
    ensures ColumnTasks(Reduce(s, MoveTask(t.id, t.columnId, j), "").tasks, t.columnId)
         == ColumnTasks(s.tasks, t.columnId)
  {
    var col := ColumnTasks(s.tasks, t.columnId);
    MoveWithinOwnColumn(s, t, j);
    ReinsertInPlace(col, j);
  }

  /** Taking out position `j` and reinserting it there gives the list back. */
  lemma ReinsertInPlace<T>(col: seq<T>, j: nat)
    requires j < |col|
    ensures var remaining := col[..j] + col[j + 1..];
            && SpliceIndex(|remaining|, j) == j
            && remaining[..j] + [col[j]] + remaining[j..] == col
  {
    var remaining := col[..j] + col[j + 1..];
    assert remaining[..j] == col[..j] && remaining[j..] == col[j + 1..];
  }

  // ----- Dropping a dragged card -----

  /** Dropped on a column, the card ends up last in that column. */
  lemma DropOnColumnAppends(s: KanbanState, task: Task, columnId: Id, isDraggingDown: bool)
    requires Find(s.tasks, HasTaskId(task.id)) == Some(task)
    requires ColumnExists(s.columns, columnId)
    ensures var m := DragEnd(s, task.id, Some(columnId), isDraggingDown);
            && m == Some(Move(task.id, columnId, |ColumnTasks(s.tasks, columnId)|))
            && ColumnTasks(Reduce(s, AsAction(m.value), "").tasks, columnId)
               == Filter(ColumnTasks(s.tasks, columnId), LacksTaskId(task.id)) + [task.(columnId := columnId)]
  {
    var col := ColumnTasks(s.tasks, columnId);
    var remaining := Filter(col, LacksTaskId(task.id));
    MoveTaskTargetColumn(s, task.id, columnId, |col|, task);
    assert SpliceIndex(|remaining|, |col|) == |remaining|;
    assert remaining[..|remaining|] == remaining && remaining[|remaining|..] == [];
  }

  /**
   * Dropped on a card of another column, the dragged card lands right
   * before that card, or right after it when dragging down; nothing else
   * in that column moves.
   */
  lemma DropOnTaskInOtherColumn(s: KanbanState, task: Task, overTask: Task, isDraggingDown: bool)
    requires UniqueTaskIds(s.tasks) && task in s.tasks && overTask in s.tasks
    requires !ColumnExists(s.columns, overTask.id)
    requires task.columnId != overTask.columnId
    ensures var col := ColumnTasks(s.tasks, overTask.columnId);
            var j := FindIndex(col, HasTaskId(overTask.id));
            var k := if isDraggingDown then j + 1 else j;
            var m := DragEnd(s, task.id, Some(overTask.id), isDraggingDown);
            && 0 <= j < |col| && col[j] == overTask
            && m == Some(Move(task.id, overTask.columnId, k))
            && ColumnTasks(Reduce(s, AsAction(m.value), "").tasks, overTask.columnId)
               == col[..k] + [task.(columnId := overTask.columnId)] + col[k..]
  {
    var c := overTask.columnId;
    var col := ColumnTasks(s.tasks, c);
    var j := FindIndex(col, HasTaskId(overTask.id));
    var k := if isDraggingDown then j + 1 else j;
    FindUniqueTask(s.tasks, task);
    FindUniqueTask(s.tasks, overTask);
    PositionInColumn(s.tasks, overTask);
    OtherColumnUntouched(s.tasks, task, c);
    MoveTaskTargetColumn(s, task.id, c, k, task);
  }

  /**
   * Dropped on a card, whichever card is dragged, the move asks for that
   * card's position in its column, or the next position when dragging down.
   */
  lemma DropOnTask(s: KanbanState, activeId: Id, overTask: Task, isDraggingDown: bool)
    requires UniqueTaskIds(s.tasks) && overTask in s.tasks
    requires !ColumnExists(s.columns, overTask.id)
    ensures var col := ColumnTasks(s.tasks, overTask.columnId);
            var j := FindIndex(col, HasTaskId(overTask.id));
            && 0 <= j < |col| && col[j] == overTask
            && DragEnd(s, activeId, Some(overTask.id), isDraggingDown)
               == Some(Move(activeId, overTask.columnId, if isDraggingDown then j + 1 else j))
  {
    FindUniqueTask(s.tasks, overTask);
    PositionInColumn(s.tasks, overTask);
  }

  /**
   * Dropped on a card of its own column, the dragged card is taken out
   * first and then inserted at the index worked out beforehand, which
   * `splice` cuts back to the end of the shortened list.
   */
  lemma DropOnTaskInSameColumn(s: KanbanState, task: Task, overTask: Task, isDraggingDown: bool)
    requires UniqueTaskIds(s.tasks) && task in s.tasks && overTask in s.tasks
    requires !ColumnExists(s.columns, overTask.id)
    requires task.columnId == overTask.columnId
    ensures var col := ColumnTasks(s.tasks, task.columnId);
            var i := FindIndex(col, HasTaskId(task.id));
            var j := FindIndex(col, HasTaskId(overTask.id));
            var k := if isDraggingDown then j + 1 else j;
            var m := DragEnd(s, task.id, Some(overTask.id), isDraggingDown);
            && 0 <= i < |col| && col[i] == task
            && m == Some(Move(task.id, task.columnId, k))
            && var remaining := col[..i] + col[i + 1..];
               var at := if k <= |remaining| then k else |remaining|;
               ColumnTasks(Reduce(s, AsAction(m.value), "").tasks, task.columnId)
               == remaining[..at] + [task] + remaining[at..]
  {
    var col := ColumnTasks(s.tasks, task.columnId);
    var i := FindIndex(col, HasTaskId(task.id));
    var j := FindIndex(col, HasTaskId(overTask.id));
    var k := if isDraggingDown then j + 1 else j;
    DropOnTask(s, task.id, overTask, isDraggingDown);
    assert AsAction(Move(task.id, task.columnId, k)) == MoveTask(task.id, task.columnId, k);
    MoveWithinOwnColumn(s, task, k);
    var remaining := col[..i] + col[i + 1..];
    assert SpliceIndex(|remaining|, k) == if k <= |remaining| then k else |remaining|;
  }

  /**
   * Within one column the drop index is worked out before the dragged card
   * is taken out: dragging the first of three cards down onto the second
   * puts it after the third, not between the other two.
   */
  lemma DragDownWithinColumn(s: KanbanState, a: Task, b: Task, c: Task)
    requires s.tasks == [a, b, c]
    requires a.columnId == b.columnId == c.columnId
    requires a.id != b.id && a.id != c.id && b.id != c.id
    requires !ColumnExists(s.columns, b.id)
    ensures var m := DragEnd(s, a.id, Some(b.id), true);
            && m == Some(Move(a.id, a.columnId, 2))
            && Reduce(s, AsAction(m.value), "").tasks == [b, c, a]
  {
    DragDownOntoSecond(s, a, b, c);
    MoveFirstToIndexTwo(s, a, b, c);
  }

  lemma DragDownOntoSecond(s: KanbanState, a: Task, b: Task, c: Task)
    requires s.tasks == [a, b, c]
    requires a.columnId == b.columnId == c.columnId
    requires a.id != b.id
    requires !ColumnExists(s.columns, b.id)
    ensures DragEnd(s, a.id, Some(b.id), true) == Some(Move(a.id, a.columnId, 2))
  {
    assert b in s.tasks;
    FilterAllKept(s.tasks, InColumn(a.columnId));
    assert FindIndex(s.tasks, HasTaskId(b.id)) == 1 by {
      assert s.tasks[1..] == [b, c];
    }
  }

  lemma MoveFirstToIndexTwo(s: KanbanState, a: Task, b: Task, c: Task)
    requires s.tasks == [a, b, c]
    requires a.columnId == b.columnId == c.columnId
    requires a.id != b.id && a.id != c.id
    ensures Reduce(s, MoveTask(a.id, a.columnId, 2), "").tasks == [b, c, a]
  {
    var col := a.columnId;
    assert Find(s.tasks, HasTaskId(a.id)) == Some(a) by {
      assert FindIndex(s.tasks, HasTaskId(a.id)) == 0;
    }
    var rest := Filter(s.tasks, LacksTaskId(a.id));
    assert rest == [b, c] by {
      DropOnlyAt(s.tasks, LacksTaskId(a.id), 0);
    }
    assert Filter(rest, NotInColumn(col)) == [] by {
      FilterNoneKept([b, c], NotInColumn(col));
    }
    assert Filter(rest, InColumn(col)) == [b, c] by {
      FilterAllKept([b, c], InColumn(col));
    }
    MoveTaskShape(s, a.id, col, 2, a);
    assert a.(columnId := col) == a;
    assert Splice([b, c], 2, a) == [b, c, a];
  }

  // ----- The arrow keys -----

  /** Taking out position `i` and reinserting it one place earlier exchanges it with its upper neighbour. */
  lemma ReinsertAbove<T>(col: seq<T>, i: nat)
    requires 0 < i < |col|
    ensures var remaining := col[..i] + col[i + 1..];
            remaining[..i - 1] + [col[i]] + remaining[i - 1..] == SwapAdjacent(col, i - 1)
  {
    var remaining := col[..i] + col[i + 1..];
    assert remaining[..i - 1] == col[..i - 1];
    assert remaining[i - 1..] == [col[i - 1]] + col[i + 1..];
  }

  /** Taking out position `i` and reinserting it one place later exchanges it with its lower neighbour. */
  lemma ReinsertBelow<T>(col: seq<T>, i: nat)
    requires i + 1 < |col|
    ensures var remaining := col[..i] + col[i + 1..];
            remaining[..i + 1] + [col[i]] + remaining[i + 1..] == SwapAdjacent(col, i)
  {
    var remaining := col[..i] + col[i + 1..];
    assert remaining[..i + 1] == col[..i] + [col[i + 1]];
    assert remaining[i + 1..] == col[i + 2..];
  }

  /** The moves the up and down arrows ask for, in terms of the selected card's position. */
  lemma VerticalKeyMoves(s: KanbanState, t: Task)
    requires UniqueTaskIds(s.tasks) && t in s.tasks
    requires s.selectedTaskId == Some(t.id) && t.id != ""
    ensures var col := ColumnTasks(s.tasks, t.columnId);
            var i := FindIndex(col, HasTaskId(t.id));
            && KeyMove(s, ArrowUp) == (if i > 0 then Some(Move(t.id, t.columnId, i - 1)) else None)
            && KeyMove(s, ArrowDown) == (if i < |col| - 1 then Some(Move(t.id, t.columnId, i + 1)) else None)
  {
    FindUniqueTask(s.tasks, t);
  }

  /**
   * ArrowUp moves the selected card above its upper neighbour, exchanging
   * the two; it does nothing exactly when the card is already first.
   */
  lemma ArrowUpSwapsWithAbove(s: KanbanState, t: Task)
    requires UniqueTaskIds(s.tasks) && t in s.tasks
    requires s.selectedTaskId == Some(t.id) && t.id != ""
    ensures var col := ColumnTasks(s.tasks, t.columnId);
            var m := KeyMove(s, ArrowUp);
            && t in col
            && (m.None? <==> col[0] == t)
            && (m.Some? ==>
                  && m.value.taskId == t.id && m.value.targetColumnId == t.columnId
                  && 0 <= m.value.targetIndex && m.value.targetIndex + 1 < |col|
                  && col[m.value.targetIndex + 1] == t
                  && ColumnTasks(Reduce(s, AsAction(m.value), "").tasks, t.columnId)
                     == SwapAdjacent(col, m.value.targetIndex))
  {
    var col := ColumnTasks(s.tasks, t.columnId);
    var i := FindIndex(col, HasTaskId(t.id));
    VerticalKeyMoves(s, t);
    PositionInColumn(s.tasks, t);
    if i > 0 {
      FindUniqueTask(s.tasks, t);
      DropOnlyAt(col, LacksTaskId(t.id), i);
      MoveTaskTargetColumn(s, t.id, t.columnId, i - 1, t);
      assert t.(columnId := t.columnId) == t;
      ReinsertAbove(col, i);
    }
  }

  /**
   * ArrowDown moves the selected card below its lower neighbour, exchanging
   * the two; it does nothing exactly when the card is already last.
   */
  lemma ArrowDownSwapsWithBelow(s: KanbanState, t: Task)
    requires UniqueTaskIds(s.tasks) && t in s.tasks
    requires s.selectedTaskId == Some(t.id) && t.id != ""
    ensures var col := ColumnTasks(s.tasks, t.columnId);
            var m := KeyMove(s, ArrowDown);
            && t in col
            && (m.None? <==> col[|col| - 1] == t)
            && (m.Some? ==>
                  && m.value.taskId == t.id && m.value.targetColumnId == t.columnId
                  && 1 <= m.value.targetIndex < |col|
                  && col[m.value.targetIndex - 1] == t
                  && ColumnTasks(Reduce(s, AsAction(m.value), "").tasks, t.columnId)
                     == SwapAdjacent(col, m.value.targetIndex - 1))
  {
    var col := ColumnTasks(s.tasks, t.columnId);
    var i := FindIndex(col, HasTaskId(t.id));
    VerticalKeyMoves(s, t);
    PositionInColumn(s.tasks, t);
    if i < |col| - 1 {
      FindUniqueTask(s.tasks, t);
      DropOnlyAt(col, LacksTaskId(t.id), i);
      MoveTaskTargetColumn(s, t.id, t.columnId, i + 1, t);
      assert t.(columnId := t.columnId) == t;
      ReinsertBelow(col, i);
    }
  }

  /** A column's position in display order, when its id is unique among the columns. */
  lemma ColumnPosition(columns: seq<Column>, columnId: Id)
    requires UniqueColumnIds(columns) && ColumnExists(columns, columnId)
    ensures var j := FindIndex(columns, HasColumnId(columnId));
            && 0 <= j < |columns| && columns[j].id == columnId
            && forall i :: 0 <= i < |columns| && i != j ==> columns[i].id != columnId
  {
    var j := FindIndex(columns, HasColumnId(columnId));
    assert |Filter(columns, HasColumnId(columnId))| <= 1;
    OnlyKeptAt(columns, HasColumnId(columnId), j);
  }

  /**
   * ArrowLeft moves the selected card to the end of the column displayed
   * to the left of its own; it does nothing exactly in the leftmost column.
   */
  lemma ArrowLeftMovesToPreviousColumn(s: KanbanState, t: Task)
    requires UniqueTaskIds(s.tasks) && UniqueColumnIds(s.columns) && t in s.tasks
    requires ColumnExists(s.columns, t.columnId)
    requires s.selectedTaskId == Some(t.id) && t.id != ""
    ensures var j := FindIndex(s.columns, HasColumnId(t.columnId));
            var m := KeyMove(s, ArrowLeft);
            && 0 <= j < |s.columns| && s.columns[j].id == t.columnId
            && (m.None? <==> j == 0)
            && (m.Some? ==>
                  var left := s.columns[j - 1].id;
                  var r := Reduce(s, AsAction(m.value), "");
                  && m.value == Move(t.id, left, |ColumnTasks(s.tasks, left)|)
                  && ColumnTasks(r.tasks, left) == ColumnTasks(s.tasks, left) + [t.(columnId := left)]
                  && ColumnTasks(r.tasks, t.columnId) == Filter(ColumnTasks(s.tasks, t.columnId), LacksTaskId(t.id)))
  {
    var j := FindIndex(s.columns, HasColumnId(t.columnId));
    FindUniqueTask(s.tasks, t);
    ColumnPosition(s.columns, t.columnId);
    if j > 0 {
      MoveToOtherColumnEnd(s, t, s.columns[j - 1].id);
    }
  }

  /**
   * ArrowRight moves the selected card to the end of the column displayed
   * to the right of its own; it does nothing exactly in the rightmost column.
   */
  lemma ArrowRightMovesToNextColumn(s: KanbanState, t: Task)
    requires UniqueTaskIds(s.tasks) && UniqueColumnIds(s.columns) && t in s.tasks
    requires ColumnExists(s.columns, t.columnId)
    requires s.selectedTaskId == Some(t.id) && t.id != ""
    ensures var j := FindIndex(s.columns, HasColumnId(t.columnId));
            var m := KeyMove(s, ArrowRight);
            && 0 <= j < |s.columns| && s.columns[j].id == t.columnId
            && (m.None? <==> j == |s.columns| - 1)
            && (m.Some? ==>
                  var right := s.columns[j + 1].id;
                  var r := Reduce(s, AsAction(m.value), "");
                  && m.value == Move(t.id, right, |ColumnTasks(s.tasks, right)|)
                  && ColumnTasks(r.tasks, right) == ColumnTasks(s.tasks, right) + [t.(columnId := right)]
                  && ColumnTasks(r.tasks, t.columnId) == Filter(ColumnTasks(s.tasks, t.columnId), LacksTaskId(t.id)))
  {
    var j := FindIndex(s.columns, HasColumnId(t.columnId));
    FindUniqueTask(s.tasks, t);
    ColumnPosition(s.columns, t.columnId);
    if j < |s.columns| - 1 {
      MoveToOtherColumnEnd(s, t, s.columns[j + 1].id);
    }
  }

  /**
   * A selected card whose column no longer exists: `indexOf` gives -1, so
   * ArrowLeft does nothing and ArrowRight sends the card to the first column.
   */
  lemma ArrowKeysFromMissingColumn(s: KanbanState, t: Task)
    requires UniqueTaskIds(s.tasks) && t in s.tasks
    requires !ColumnExists(s.columns, t.columnId) && |s.columns| > 0
    requires s.selectedTaskId == Some(t.id) && t.id != ""
    ensures KeyMove(s, ArrowLeft).None?
    ensures KeyMove(s, ArrowRight)
            == Some(Move(t.id, s.columns[0].id, |ColumnTasks(s.tasks, s.columns[0].id)|))
  {
    FindUniqueTask(s.tasks, t);
  }

  /** With no card selected, or a selection that names no card, no key moves anything. */
  lemma NoSelectionNoKeyMove(s: KanbanState, key: string)
    requires s.selectedTaskId.None? || !TaskExists(s.tasks, s.selectedTaskId.value)
    ensures KeyMove(s, key).None?
  {
  }
}
