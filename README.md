# Kanban board core, modelled in Dafny

This project models the logic of a client-side Kanban board. The board has
columns, tasks filed under columns, and threaded comments on tasks. Three
pieces are modelled:

- **The reducer, `kanbanReducer`.** It takes the board state and one of
  eleven actions and returns the next state.
  - `KanbanContext.Reduce` dispatches to one function per action, in
    `kanban_context.dfy`.
  - `kanban_properties.dfy` states what each action does.
  - `kanban_invariants.dfy` proves which integrity conditions each action
    keeps. The conditions are unique column ids, unique task ids, comment
    ids unique across the whole board, resolved column references,
    comments owned by their task, and a selection that names a task.
- **The comment-thread builder, `buildCommentTree`.** It works step by
  step, so it is modelled as a method with two loops over a map
  (`TaskModal.BuildCommentTree`). The method is proved equal to
  filter-based specifications of the roots and of each comment's replies.
  Lemmas in `task_modal.dfy` state what the thread view then shows.
- **The move-target rules of the board view.** `handleDragEnd` becomes
  `KanbanBoard.DragEnd` and `handleKeyDown` becomes `KanbanBoard.KeyMove`.
  Each returns the MOVE_TASK payload it would dispatch. Lemmas in
  `kanban_board.dfy` combine them with the reducer: a drop on a column
  appends, ArrowUp and ArrowDown swap neighbours, ArrowLeft and ArrowRight
  move the card to the end of the adjacent column.

Shared pieces:

- `seqs.dfy` gives the JavaScript array operations the code uses (`filter`,
  `find`, `findIndex`, one-element `splice`) as sequence functions, with
  lemmas about them.
- `text.dfy` gives `String.prototype.trim`'s notion of whitespace.
- `types.dfy` holds the record types.
- `wrappers.dfy` holds `Option`, which stands for `null`/`undefined`.

Behaviour the model follows from the code:

- **Orphaned replies are dropped.** One might expect a reply whose parent
  is missing to be shown as a root, but the code has no `else` branch for
  that case, so such a reply appears nowhere (`TaskModal.OrphanDropped`).
- **Truthiness.** An empty `parentId` counts as "no parent", so that
  comment is a root. An empty `selectedTaskId` counts as "no selection".
- **Missing column under the keyboard.** When the selected card's column
  is missing, `indexOf` returns -1. ArrowRight then sends the card to the
  first column (`KanbanBoard.ArrowKeysFromMissingColumn`).
- **Same-column drops.** The drop index is computed before the reducer
  takes the dragged card out, and `splice` then cuts it back to the end of
  the shortened list (`KanbanBoard.DropOnTaskInSameColumn`). So dragging a
  card down onto a later card that is not last lands it after the card
  below the target (`KanbanBoard.DragDownWithinColumn`). Dragging it down
  onto the last card lands it at the end, just below that card.

## Model

| member | source | states |
|---|---|---|
| `Text.Trim` | src/contexts/KanbanContext.tsx:69 | `trim()` gives a slice of the string with only whitespace cut off each side, and that slice neither begins nor ends with whitespace |
| `Text.TrimEmptyIffBlank` | src/contexts/KanbanContext.tsx:69 | `trim()` leaves the empty string exactly when every character is ECMAScript whitespace or a line terminator, so `!title.trim()` is `IsBlank(title)` |
| `Seqs.Filter` | src/contexts/KanbanContext.tsx:97-98 | `filter` keeps exactly the elements that pass the test and is never longer than its input; `Seqs.FilterConcat` states that it keeps their order |
| `Seqs.FilterConcat` | src/contexts/KanbanContext.tsx:217-222 | filtering a concatenation is filtering each part, so filtering keeps the list order |
| `Seqs.Splice` | src/contexts/KanbanContext.tsx:215 | `splice(start, 0, x)` puts `x` at the position `SpliceIndex` gives, keeps the elements before it and shifts the rest one place right |
| `Seqs.SpliceIndex` | src/contexts/KanbanContext.tsx:215 | the position `splice(targetIndex, 0, x)` inserts at is always within the list; a non-negative index in range is used as is, and one past the end appends |
| `Seqs.FindIndex` | src/components/KanbanBoard.tsx:96 | `findIndex` gives -1 exactly when nothing matches; otherwise the index holds a match and no earlier index does |
| `Seqs.Find` | src/contexts/KanbanContext.tsx:201 | `find` gives nothing exactly when no element matches, and otherwise the first element of the list that matches |
| `KanbanProperties.FindUniqueTask` | src/contexts/KanbanContext.tsx:201 | when task ids are unique, `find` by id returns the task carrying that id |
| `KanbanContext.Reduce` | src/contexts/KanbanContext.tsx:65-233 | defined by its body, one case per action; what each action does is stated by the `KanbanProperties` lemmas and what it keeps by `KanbanInvariants.ReducePreservesValid` |
| `KanbanContext.ReduceAddColumn` | src/contexts/KanbanContext.tsx:67-79 | defined by its body; stated by `KanbanProperties.AddColumnAppends` and `KanbanProperties.BlankInputRejected` |
| `KanbanContext.ReduceRenameColumn` | src/contexts/KanbanContext.tsx:80-93 | defined by its body; stated by `KanbanProperties.RenameColumnReplacesMatching` |
| `KanbanContext.ReduceDeleteColumn` | src/contexts/KanbanContext.tsx:94-106 | defined by its body; stated by `KanbanProperties.DeleteColumnCascades` |
| `KanbanContext.ReduceAddTask` | src/contexts/KanbanContext.tsx:107-125 | defined by its body; stated by `KanbanProperties.AddTaskAppends` |
| `KanbanContext.ReduceUpdateTask` | src/contexts/KanbanContext.tsx:126-137 | defined by its body; stated by `KanbanProperties.UpdateTaskReplacesMatching` |
| `KanbanContext.ReduceDeleteTask` | src/contexts/KanbanContext.tsx:138-146 | defined by its body; stated by `KanbanProperties.DeleteTaskRemovesExactly` |
| `KanbanContext.ReduceAddComment` | src/contexts/KanbanContext.tsx:147-171 | defined by its body; stated by `KanbanProperties.AddCommentAppends` |
| `KanbanContext.ReduceUpdateComment` | src/contexts/KanbanContext.tsx:172-188 | defined by its body; stated by `KanbanProperties.UpdateCommentReplacesMatching` |
| `KanbanContext.ReduceDeleteComment` | src/contexts/KanbanContext.tsx:189-198 | defined by its body; stated by `KanbanProperties.DeleteCommentRemovesOnlyThatId` and `TaskModal.DeleteCommentKeepsThreadOrder` |
| `KanbanContext.ReduceMoveTask` | src/contexts/KanbanContext.tsx:199-224 | defined by its body; stated by the `KanbanProperties.MoveTask…` lemmas and `KanbanBoard.MoveTaskInPlace` |
| `KanbanContext.ReduceSelectTask` | src/contexts/KanbanContext.tsx:225-229 | defined by its body; stated by `KanbanProperties.SelectTaskOverwrites` |
| `KanbanProperties.BlankInputRejected` | src/contexts/KanbanContext.tsx:69-177 | ADD_COLUMN, RENAME_COLUMN, ADD_TASK, UPDATE_TASK, ADD_COMMENT and UPDATE_COMMENT return the state unchanged when their text trims to nothing |
| `KanbanProperties.AddColumnAppends` | src/contexts/KanbanContext.tsx:73-79 | one column is appended, with the fresh id and the untrimmed title; the old columns are a prefix of the result; tasks and selection are unchanged |
| `KanbanProperties.RenameColumnReplacesMatching` | src/contexts/KanbanContext.tsx:86-93 | the columns keep their length, order and ids; only columns with the id get the new title; an unknown id leaves the whole state equal |
| `KanbanProperties.DeleteColumnCascades` | src/contexts/KanbanContext.tsx:94-106 | exactly the columns with the id and exactly the tasks filed under it go; the remaining columns keep their order: an id no column carries leaves the column list equal, and a single column carrying it is cut out of its place; every other column keeps its task list; the selection is cleared exactly when the selected task lay in that column, and is otherwise kept |
| `KanbanProperties.AddTaskAppends` | src/contexts/KanbanContext.tsx:113-125 | one task is appended, with the fresh id, the title, the description, the given column and no comments; only that column's list grows, by that task at its end |
| `KanbanProperties.UpdateTaskReplacesMatching` | src/contexts/KanbanContext.tsx:132-137 | the payload replaces, position by position, exactly the tasks with its id; an unknown id leaves the whole state equal |
| `KanbanProperties.DeleteTaskRemovesExactly` | src/contexts/KanbanContext.tsx:138-146 | a task survives exactly when its id differs; each column keeps the rest of its list in order; the selection is cleared exactly when it was that id |
| `KanbanProperties.AddCommentAppends` | src/contexts/KanbanContext.tsx:153-171 | tasks with the id get one comment appended, carrying the fresh id, the content, the task id and the parent id; every other task is identical |
| `KanbanProperties.UpdateCommentReplacesMatching` | src/contexts/KanbanContext.tsx:178-188 | only the content of comments with the id changes; their id, task id and parent id stay; an unknown id leaves the whole state equal |
| `KanbanProperties.DeleteCommentRemovesOnlyThatId` | src/contexts/KanbanContext.tsx:189-198 | every task keeps exactly its comments with another id; replies to the deleted comment stay |
| `TaskModal.DeleteCommentKeepsThreadOrder` | src/contexts/KanbanContext.tsx:189-198 | after DELETE_COMMENT each task's roots, and the replies to any parent, are the old ones in the old order with the deleted id taken out |
| `KanbanProperties.MoveUnknownTaskIsNoOp` | src/contexts/KanbanContext.tsx:199-204 | moving an id no task carries returns the state unchanged, selection included |
| `KanbanProperties.MoveTaskTargetColumn` | src/contexts/KanbanContext.tsx:207-215 | the target column's list is its old list without the task, with the re-homed task inserted where `splice` puts it |
| `KanbanProperties.MoveTaskOtherColumns` | src/contexts/KanbanContext.tsx:207-222 | every other column keeps its old list minus the moved task, in the same order |
| `KanbanProperties.MovedTaskIsOnlyOne` | src/contexts/KanbanContext.tsx:207-222 | after a move, the re-homed task is on the board and is the only task carrying its id; every other task on the board was there before |
| `KanbanProperties.MoveTaskBasics` | src/contexts/KanbanContext.tsx:207-224 | with unique ids, a move keeps the number of tasks, files the task under the target column and selects it |
| `KanbanProperties.MoveTaskIdempotent` | src/contexts/KanbanContext.tsx:199-224 | repeating the same MOVE_TASK changes nothing further |
| `KanbanProperties.SelectTaskOverwrites` | src/contexts/KanbanContext.tsx:225-229 | SELECT_TASK stores any id or none, without checking it, and changes nothing else; the later of two selections wins |
| `KanbanInvariants.AddColumnKeepsValid` | src/contexts/KanbanContext.tsx:73-79 | with a fresh id, ADD_COLUMN keeps the board's integrity conditions |
| `KanbanInvariants.RenameColumnKeepsValid` | src/contexts/KanbanContext.tsx:86-93 | RENAME_COLUMN keeps the integrity conditions |
| `KanbanInvariants.DeleteColumnKeepsValid` | src/contexts/KanbanContext.tsx:94-106 | DELETE_COLUMN keeps them: no task is left pointing at the deleted column, and the selection is cleared whenever its task goes |
| `KanbanInvariants.AddTaskKeepsValid` | src/contexts/KanbanContext.tsx:113-125 | with a fresh id and an existing column, ADD_TASK keeps them |
| `KanbanInvariants.AddTaskToMissingColumnDangles` | src/contexts/KanbanContext.tsx:113-125 | ADD_TASK does not check its column: a non-blank task added to a missing column leaves a task whose column does not exist |
| `KanbanInvariants.UpdateTaskKeepsValid` | src/contexts/KanbanContext.tsx:132-137 | UPDATE_TASK keeps them when the replacement names an existing column, owns its comments and shares no comment id with another task |
| `KanbanInvariants.DeleteTaskKeepsValid` | src/contexts/KanbanContext.tsx:138-146 | DELETE_TASK keeps them; the selection never names a deleted task |
| `KanbanInvariants.AddCommentKeepsValid` | src/contexts/KanbanContext.tsx:153-171 | with a fresh id, ADD_COMMENT keeps comment ids unique and owned by their task |
| `KanbanInvariants.UpdateCommentKeepsValid` | src/contexts/KanbanContext.tsx:178-188 | UPDATE_COMMENT keeps them |
| `KanbanInvariants.DeleteCommentKeepsValid` | src/contexts/KanbanContext.tsx:189-198 | DELETE_COMMENT keeps them |
| `KanbanInvariants.MoveTaskKeepsValid` | src/contexts/KanbanContext.tsx:199-224 | with an existing target column, MOVE_TASK keeps task ids unique, by counting each id before and after the splice, and keeps the selection resolved |
| `KanbanInvariants.SelectTaskKeepsValid` | src/contexts/KanbanContext.tsx:225-229 | selecting an existing task, or none, keeps them |
| `KanbanInvariants.ReducePreservesValid` | src/contexts/KanbanContext.tsx:65-233 | every action keeps the integrity conditions, given a fresh id and payload references that exist |
| `TaskModal.Latest` | src/components/modals/TaskModal.tsx:92-94 | the comment a `Map.set` pass leaves under an id is absent exactly when no comment carries it, and otherwise is the last one that does |
| `TaskModal.IndexById` | src/components/modals/TaskModal.tsx:91-93 | after the first pass every id a comment carries has a node, and no other id does; the node holds the last comment with that id and no children yet |
| `TaskModal.BuildCommentTree` | src/components/modals/TaskModal.tsx:87-110 | the map's keys are exactly the comment ids, each holding the last comment with that id; each node's children are the ids of the replies to it, in list order, wherever they stand relative to it; the roots are the ids of the non-replies, in list order; no input gives no nodes and no roots |
| `TaskModal.CommentIdNamesOneComment` | src/contexts/KanbanContext.tsx:178-198 | on a valid board a comment id names one comment on one task, so UPDATE_COMMENT and DELETE_COMMENT touch at most one comment |
| `TaskModal.PlacedByParentId` | src/components/modals/TaskModal.tsx:97-106 | with unique ids, a comment is a root exactly when it is not a reply, and is listed under an id exactly when it replies to that id |
| `TaskModal.OrphanDropped` | src/components/modals/TaskModal.tsx:98-103 | a reply whose parent no comment carries is neither a root nor listed under any comment |
| `TaskModal.ResolvedShownOnce` | src/components/modals/TaskModal.tsx:97-107 | a root, or a reply whose parent exists, is placed once: as a root or under its parent, and under no other comment |
| `TaskModal.ParentClosedUnreachable` | src/components/modals/TaskModal.tsx:97-107 | comments whose parent chain stays inside a set of replies, such as a cycle, are never reached from the roots, at any depth |
| `TaskModal.SelfParentUnreachable` | src/components/modals/TaskModal.tsx:97-103 | a comment that names itself as its parent is never reached from the roots |
| `TaskModal.ThreeLevelThread` | src/components/modals/TaskModal.tsx:97-107 | a comment, a reply and a reply to the reply form one root with a chain of single children |
| `TaskModal.EmptyParentIsRoot` | src/components/modals/TaskModal.tsx:98 | an empty-string parent id is falsy, so that comment is a root |
| `KanbanBoard.DragEnd` | src/components/KanbanBoard.tsx:34-83 | no move exactly when there is no drop target, or the target is neither a column nor a task; any move names the dragged id and a non-negative index |
| `KanbanBoard.DropOnColumnAppends` | src/components/KanbanBoard.tsx:52-58 | a drop on a column asks for that column at index "its task count"; the reducer then puts the card last in that column |
| `KanbanBoard.DropOnTaskInOtherColumn` | src/components/KanbanBoard.tsx:60-76 | a drop on a card of another column targets that card's column at its position, plus one when dragging down; the dragged card lands right before that card, or right after it |
| `KanbanBoard.DropOnTask` | src/components/KanbanBoard.tsx:60-76 | a drop on a card, whichever card is dragged, asks for that card's column at the card's position in it, plus one when dragging down |
| `KanbanBoard.DropOnTaskInSameColumn` | src/components/KanbanBoard.tsx:60-76 | a drop on a card of the dragged card's own column takes the dragged card out first, then inserts it at the index computed beforehand, cut back to the end of the shortened list |
| `KanbanBoard.MoveTaskInPlace` | src/contexts/KanbanContext.tsx:199-224 | moving a task to the position it already holds in its own column leaves every column's list as it was |
| `KanbanBoard.DragDownWithinColumn` | src/components/KanbanBoard.tsx:60-76 | dragging the first of three cards down onto the second asks for index 2, and the reducer then puts it after the third |
| `KanbanBoard.KeyMove` | src/components/KanbanBoard.tsx:86-158 | any move is for the selected, non-empty id; keys other than the four arrows never move |
| `KanbanBoard.NoSelectionNoKeyMove` | src/components/KanbanBoard.tsx:87-90 | with no selection, or one that names no task, no key moves anything |
| `KanbanBoard.VerticalKeyMoves` | src/components/KanbanBoard.tsx:92-124 | ArrowUp asks for the card's column at its index minus one when it is not first; ArrowDown asks for its index plus one when it is not last |
| `KanbanBoard.ArrowUpSwapsWithAbove` | src/components/KanbanBoard.tsx:101-112 | ArrowUp does nothing exactly when the card is first in its column; otherwise the reducer exchanges it with the card above |
| `KanbanBoard.ArrowDownSwapsWithBelow` | src/components/KanbanBoard.tsx:113-124 | ArrowDown does nothing exactly when the card is last in its column; otherwise the reducer exchanges it with the card below |
| `KanbanBoard.ArrowLeftMovesToPreviousColumn` | src/components/KanbanBoard.tsx:125-140 | ArrowLeft does nothing exactly in the leftmost column; otherwise the card is appended to the previous column and leaves its own |
| `KanbanBoard.ArrowRightMovesToNextColumn` | src/components/KanbanBoard.tsx:141-156 | ArrowRight does nothing exactly in the rightmost column; otherwise the card is appended to the next column and leaves its own |
| `KanbanBoard.ArrowKeysFromMissingColumn` | src/components/KanbanBoard.tsx:97-156 | when the selected card's column is missing, ArrowLeft does nothing and ArrowRight targets the first column |

## Left out

- `KanbanProvider`, `useKanban` and the `useLocalStorage` hook are not modelled. They are React wiring and browser storage I/O (`localStorage`, JSON).
- `initialState` is not modelled. It is three columns with generated ids, which is a constant of the running app.
- `generateId()` is not modelled. Its result is the `freshId` argument of `Reduce`. The integrity lemmas require that id to be new (`IsFresh`), as a random UUID is in practice.
- The reducer's `console.warn` calls are not modelled, because they produce no state.
- `targetIndex` is an integer in the model. A JavaScript `number` could be fractional, NaN or infinite; `splice` would convert those first.
- The `isDraggingDown` geometry is not modelled. It is a boolean input, standing for the comparison of two DOM rectangles.
- `setDraggedTask` is not modelled, nor the `window` key listener, nor `dispatch` itself. The board functions return the payload instead of dispatching it.
- The rest of the task dialog is not modelled: its form handlers, `window.confirm`, and the JSX rendering. `renderComment`'s recursion is captured only as reachability from the roots (`TaskModal.ReachableWithin`).
- JavaScript object identity in `buildCommentTree` is not modelled. The shared node objects are a map from id to node, and children are lists of ids.
- The integrity conditions do not include "a reply's parent exists". DELETE_COMMENT leaves replies pointing at the deleted comment, and ADD_COMMENT does not check the parent, so no action list keeps that condition.
- `Seqs.SpliceIndex`: the contract states the position only for a non-negative index. The negative case (counting back from the end, stopping at 0) is in the definition, which the move lemmas use directly.
