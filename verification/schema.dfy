/**
 * Rows of the five relations the service keeps: people, content_items,
 * tasks, task_refs and task_deps. Columns that may be NULL are Options;
 * ids and creation timestamps are kept apart (ids are map keys, timestamps
 * come from the clock and are not modelled).
 */
module Schema {
  import opened Wrappers

  /** The `task_status` enumerated type. */
  datatype Status = Todo | InProgress | Done | Blocked

  /** A `date` column value, carried as the text the client library renders for it. */
  type Date = string

  datatype Person = Person(name: string, role: Option<string>, telegramId: Option<int>, username: Option<string>)

  datatype ContentItem = ContentItem(title: string)

  /**
   * A `tasks` row. The status column has a default but no NOT NULL
   * constraint, so a stored status may be NULL.
   */
  datatype Task = Task(
    title: string,
    contentId: Option<int>,
    assigneeId: Option<int>,
    due: Option<Date>,
    status: Option<Status>,
    description: Option<string>,
    instructions: Option<string>)

  /** A `task_refs` row; it belongs to the task it names. */
  datatype TaskRef = TaskRef(taskId: int, url: string, caption: Option<string>)

  /** A `task_deps` row: `task` requires `prerequisite` (column requires_task_id). */
  datatype Edge = Edge(task: int, prerequisite: int)

  /** A `tasks` row together with its primary key, as a table scan yields it. */
  datatype TableRow = TableRow(id: int, task: Task)

  /** What an INSERT says about the status column: nothing, NULL, or a value. */
  datatype StatusInput = DefaultStatus | NullStatus | GivenStatus(status: Status)

  /** The stored status: `DEFAULT 'todo'` applies only when the column is not given. */
  function StoredStatus(s: StatusInput): (r: Option<Status>)
    ensures s.DefaultStatus? ==> r == Some(Todo)
    ensures s.NullStatus? <==> r.None?
    ensures s.GivenStatus? ==> r == Some(s.status)
  {
    match s
    case DefaultStatus => Some(Todo)
    case NullStatus => None
    case GivenStatus(v) => Some(v)
  }

  /** No two rows of a scan share a primary key. */
  predicate DistinctIds(rows: seq<TableRow>) {
    forall i, j :: 0 <= i < |rows| && 0 <= j < |rows| && rows[i].id == rows[j].id ==> i == j
  }
}
