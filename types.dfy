/** The board's records: columns, tasks and the comments held inside each task. */
module Types {
  import opened Wrappers

  /** Identifiers are the strings `generateId()` hands out. */
  type Id = string

  /** A lane of the board; the columns' order in the state is their display order. */
  datatype Column = Column(id: Id, title: string)

  /**
   * A comment on a task. `parentId` is set on replies; the `Comment`
   * interface omits it, but the reducer writes it and the thread view
   * reads it.
   */
  datatype Comment = Comment(id: Id, content: string, taskId: Id, parentId: Option<Id>)

  /**
   * A card. It belongs to a column only through `columnId`: a column's
   * tasks are the board's tasks filtered by that field, in board order.
   */
  datatype Task = Task(
    id: Id,
    title: string,
    description: Option<string>,
    columnId: Id,
    comments: seq<Comment>)
}
