/**
 * The five relations of the schema as an in-memory store. The constraints
 * the database enforces become the `Valid` invariant of `Database`, and
 * each INSERT or DELETE statement becomes a method that either applies the
 * statement (with its ON DELETE CASCADE / SET NULL effects) or reports the
 * constraint it violates and leaves the rows unchanged.
 */
module Store {
  import opened Wrappers
  import opened Schema
  import Digest

  /** The constraint a rejected statement violated. */
  datatype DbError = CheckViolation | UniqueViolation | ForeignKeyViolation

  /** A snapshot of every table and every `serial` sequence. */
  datatype Tables = Tables(
    people: map<int, Person>,
    contentItems: map<int, ContentItem>,
    tasks: map<int, Task>,
    refs: map<int, TaskRef>,
    deps: set<Edge>,
    nextPersonId: int,
    nextContentId: int,
    nextTaskId: int,
    nextRefId: int)

  /** A nullable foreign key is NULL or names an existing row. */
  predicate Resolves(link: Option<int>, keys: set<int>) {
    link.Some? ==> link.value in keys
  }

  /** `tasks.assignee_id REFERENCES people(id)` and `tasks.content_id REFERENCES content_items(id)`. */
  predicate TaskLinksResolve(tasks: map<int, Task>, people: map<int, Person>, contentItems: map<int, ContentItem>) {
    forall id :: id in tasks ==>
      Resolves(tasks[id].assigneeId, people.Keys) && Resolves(tasks[id].contentId, contentItems.Keys)
  }

  /** `task_refs.task_id NOT NULL REFERENCES tasks(id)`. */
  predicate RefsOwned(refs: map<int, TaskRef>, tasks: map<int, Task>) {
    forall id :: id in refs ==> refs[id].taskId in tasks
  }

  /** Both columns of `task_deps` reference tasks, and `CHECK (task_id <> requires_task_id)`. */
  predicate EdgesWellFormed(deps: set<Edge>, tasks: map<int, Task>) {
    forall e :: e in deps ==> e.task != e.prerequisite && e.task in tasks && e.prerequisite in tasks
  }

  /** `people.username UNIQUE`: NULL usernames may repeat, others may not. */
  predicate UsernamesUnique(people: map<int, Person>) {
    forall a, b :: a in people && b in people && people[a].username.Some? && people[a].username == people[b].username ==> a == b
  }

  /** Every key was handed out by the table's `serial` sequence, which starts at 1. */
  predicate KeysBelow<V>(m: map<int, V>, next: int) {
    forall k :: k in m ==> 1 <= k < next
  }

  predicate UsernameTaken(people: map<int, Person>, username: Option<string>) {
    username.Some? && exists k :: k in people && people[k].username == username
  }

  /** The `task_refs` rows left after `ON DELETE CASCADE` removes those of task `taskId`. */
  function RefsWithoutTask(refs: map<int, TaskRef>, taskId: int): (r: map<int, TaskRef>)
    ensures forall k :: k in r <==> k in refs && refs[k].taskId != taskId
    ensures forall k :: k in r ==> r[k] == refs[k]
  {
    map k | k in refs && refs[k].taskId != taskId :: refs[k]
  }

  /** The `task_deps` rows left after `ON DELETE CASCADE` on either column removes those touching `taskId`. */
  function EdgesWithoutTask(deps: set<Edge>, taskId: int): (r: set<Edge>)
    ensures forall e :: e in r <==> e in deps && e.task != taskId && e.prerequisite != taskId
  {
    set e | e in deps && e.task != taskId && e.prerequisite != taskId
  }

  /** `ON DELETE SET NULL` for `assignee_id`: only that column changes, and only where it named `personId`. */
  function TasksWithoutAssignee(tasks: map<int, Task>, personId: int): (r: map<int, Task>)
    ensures r.Keys == tasks.Keys
    ensures forall k :: k in r ==>
      r[k].assigneeId == (if tasks[k].assigneeId == Some(personId) then None else tasks[k].assigneeId)
    ensures forall k :: k in r ==> r[k].(assigneeId := tasks[k].assigneeId) == tasks[k]
  {
    map k | k in tasks :: if tasks[k].assigneeId == Some(personId) then tasks[k].(assigneeId := None) else tasks[k]
  }

  /** `ON DELETE SET NULL` for `content_id`: only that column changes, and only where it named `contentId`. */
  function TasksWithoutContent(tasks: map<int, Task>, contentId: int): (r: map<int, Task>)
    ensures r.Keys == tasks.Keys
    ensures forall k :: k in r ==>
      r[k].contentId == (if tasks[k].contentId == Some(contentId) then None else tasks[k].contentId)
    ensures forall k :: k in r ==> r[k].(contentId := tasks[k].contentId) == tasks[k]
  {
    map k | k in tasks :: if tasks[k].contentId == Some(contentId) then tasks[k].(contentId := None) else tasks[k]
  }

  /**
   * Why inserting edge `e` into `task_deps` fails, in the order the database
   * checks: the CHECK constraint, then the primary key, then the foreign keys.
   */
  function EdgeInsertError(deps: set<Edge>, tasks: map<int, Task>, e: Edge): (r: Option<DbError>)
    ensures r == Some(CheckViolation) <==> e.task == e.prerequisite
    ensures r == Some(UniqueViolation) <==> e.task != e.prerequisite && e in deps
    ensures r.None? <==> e.task != e.prerequisite && e !in deps && e.task in tasks && e.prerequisite in tasks
  {
    if e.task == e.prerequisite then Some(CheckViolation)
    else if e in deps then Some(UniqueViolation)
    else if e.task !in tasks || e.prerequisite !in tasks then Some(ForeignKeyViolation)
    else None
  }

  /** Two scans of the same table hold the same rows. */
  predicate IsScan(rows: seq<TableRow>, tasks: map<int, Task>) {
    && DistinctIds(rows)
    && (forall i :: 0 <= i < |rows| ==> rows[i].id in tasks && rows[i].task == tasks[rows[i].id])
    && (set i | 0 <= i < |rows| :: rows[i].id) == tasks.Keys
  }

  lemma {:induction false} DistinctMultiplicity(rows: seq<TableRow>, x: TableRow)
    requires DistinctIds(rows)
    ensures multiset(rows)[x] == if x in rows then 1 else 0
    decreases |rows|
  {
    if rows != [] {
      var tail := rows[1..];
      assert rows == [rows[0]] + tail;
      assert DistinctIds(tail) by {
        forall i, j | 0 <= i < |tail| && 0 <= j < |tail| && tail[i].id == tail[j].id ensures i == j {
          assert rows[i + 1] == tail[i] && rows[j + 1] == tail[j];
        }
      }
      DistinctMultiplicity(tail, x);
      forall i | 0 <= i < |tail| ensures tail[i] != rows[0] {
        assert rows[i + 1] == tail[i];
      }
    }
  }

  /** Any two scans of one table are permutations of each other. */
  lemma ScansAgree(a: seq<TableRow>, b: seq<TableRow>, tasks: map<int, Task>)
    requires IsScan(a, tasks) && IsScan(b, tasks)
    ensures multiset(a) == multiset(b)
  {
    forall x ensures multiset(a)[x] == multiset(b)[x] {
      DistinctMultiplicity(a, x);
      DistinctMultiplicity(b, x);
      if x in a { ScanMember(a, b, tasks, x); }
      if x in b { ScanMember(b, a, tasks, x); }
    }
  }

  lemma ScanMember(a: seq<TableRow>, b: seq<TableRow>, tasks: map<int, Task>, x: TableRow)
    requires IsScan(a, tasks) && IsScan(b, tasks)
    requires x in a
    ensures x in b
  {
    var i :| 0 <= i < |a| && a[i] == x;
    assert x.id in (set j | 0 <= j < |b| :: b[j].id);
    var j :| 0 <= j < |b| && b[j].id == x.id;
    assert b[j] == x;
  }

  class Database {
    var people: map<int, Person>
    var contentItems: map<int, ContentItem>
    var tasks: map<int, Task>
    var refs: map<int, TaskRef>
    var deps: set<Edge>
    /** The next value each table's `serial` sequence hands out. */
    var nextPersonId: int
    var nextContentId: int
    var nextTaskId: int
    var nextRefId: int

    function Snapshot(): Tables
      reads this
    {
      Tables(people, contentItems, tasks, refs, deps, nextPersonId, nextContentId, nextTaskId, nextRefId)
    }

    /** The schema's constraints hold of the stored rows. */
    ghost predicate Valid()
      reads this
    {
      && 1 <= nextPersonId && 1 <= nextContentId && 1 <= nextTaskId && 1 <= nextRefId
      && KeysBelow(people, nextPersonId)
      && KeysBelow(contentItems, nextContentId)
      && KeysBelow(tasks, nextTaskId)
      && KeysBelow(refs, nextRefId)
      && TaskLinksResolve(tasks, people, contentItems)
      && RefsOwned(refs, tasks)
      && EdgesWellFormed(deps, tasks)
      && UsernamesUnique(people)
    }

    /** Empty tables with fresh sequences. */
    constructor ()
      ensures Valid()
      ensures Snapshot() == Tables(map[], map[], map[], map[], {}, 1, 1, 1, 1)
    {
      people, contentItems, tasks, refs, deps := map[], map[], map[], map[], {};
      nextPersonId, nextContentId, nextTaskId, nextRefId := 1, 1, 1, 1;
    }

    /**
     * `INSERT INTO people`. The sequence advances whether or not the row is
     * accepted; a username already in use is a unique violation.
     */
    method InsertPerson(name: string, role: Option<string>, telegramId: Option<int>, username: Option<string>)
      returns (r: Result<int, DbError>)
      requires Valid()
      modifies this
      ensures Valid()
      ensures r.Success? <==> !UsernameTaken(old(people), username)
      ensures r.Success? ==> r.value == old(nextPersonId) && r.value !in old(people)
      ensures r.Success? ==> Snapshot() == old(Snapshot()).(
        people := old(people)[r.value := Person(name, role, telegramId, username)],
        nextPersonId := old(nextPersonId) + 1)
      ensures r.Failure? ==> r.error == UniqueViolation && Snapshot() == old(Snapshot()).(nextPersonId := old(nextPersonId) + 1)
    {
      var id := nextPersonId;
      nextPersonId := nextPersonId + 1;
      if UsernameTaken(people, username) {
        return Failure(UniqueViolation);
      }
      people := people[id := Person(name, role, telegramId, username)];
      r := Success(id);
    }

    /** `INSERT INTO content_items (title) VALUES ($1)`: always accepted. */
    method InsertContentItem(title: string) returns (id: int)
      requires Valid()
      modifies this
      ensures Valid()
      ensures id == old(nextContentId) && id !in old(contentItems)
      ensures Snapshot() == old(Snapshot()).(
        contentItems := old(contentItems)[id := ContentItem(title)],
        nextContentId := old(nextContentId) + 1)
    {
      id := nextContentId;
      nextContentId := nextContentId + 1;
      contentItems := contentItems[id := ContentItem(title)];
    }

    /**
     * `INSERT INTO tasks`. Both links must name existing rows; an omitted
     * status becomes `todo`.
     */
    method InsertTask(title: string, contentId: Option<int>, assigneeId: Option<int>, due: Option<Date>,
                      status: StatusInput, description: Option<string>, instructions: Option<string>)
      returns (r: Result<int, DbError>)
      requires Valid()
      modifies this
      ensures Valid()
      ensures r.Success? <==> Resolves(contentId, old(contentItems).Keys) && Resolves(assigneeId, old(people).Keys)
      ensures r.Success? ==> r.value == old(nextTaskId) && r.value !in old(tasks)
      ensures r.Success? ==> Snapshot() == old(Snapshot()).(
        tasks := old(tasks)[r.value := Task(title, contentId, assigneeId, due, StoredStatus(status), description, instructions)],
        nextTaskId := old(nextTaskId) + 1)
      ensures r.Failure? ==> r.error == ForeignKeyViolation && Snapshot() == old(Snapshot()).(nextTaskId := old(nextTaskId) + 1)
    {
      var id := nextTaskId;
      nextTaskId := nextTaskId + 1;
      if !Resolves(contentId, contentItems.Keys) || !Resolves(assigneeId, people.Keys) {
        return Failure(ForeignKeyViolation);
      }
      tasks := tasks[id := Task(title, contentId, assigneeId, due, StoredStatus(status), description, instructions)];
      r := Success(id);
    }

    /** `INSERT INTO task_refs`: the owning task must exist. */
    method InsertRef(taskId: int, url: string, caption: Option<string>) returns (r: Result<int, DbError>)
      requires Valid()
      modifies this
      ensures Valid()
      ensures r.Success? <==> taskId in old(tasks)
      ensures r.Success? ==> r.value == old(nextRefId) && r.value !in old(refs)
      ensures r.Success? ==> Snapshot() == old(Snapshot()).(
        refs := old(refs)[r.value := TaskRef(taskId, url, caption)],
        nextRefId := old(nextRefId) + 1)
      ensures r.Failure? ==> r.error == ForeignKeyViolation && Snapshot() == old(Snapshot()).(nextRefId := old(nextRefId) + 1)
    {
      var id := nextRefId;
      nextRefId := nextRefId + 1;
      if taskId !in tasks {
        return Failure(ForeignKeyViolation);
      }
      refs := refs[id := TaskRef(taskId, url, caption)];
      r := Success(id);
    }

    /**
     * `INSERT INTO task_deps`: no self-loop, at most one row per ordered
     * pair, both ends existing tasks.
     */
    method InsertDep(e: Edge) returns (err: Option<DbError>)
      requires Valid()
      modifies this
      ensures Valid()
      ensures err == EdgeInsertError(old(deps), old(tasks), e)
      ensures Snapshot() == old(Snapshot()).(deps := if err.None? then old(deps) + {e} else old(deps))
    {
      err := EdgeInsertError(deps, tasks, e);
      if err.None? {
        deps := deps + {e};
      }
    }

    /** `DELETE FROM task_deps` for one ordered pair. */
    method DeleteDep(e: Edge) returns (deleted: bool)
      requires Valid()
      modifies this
      ensures Valid()
      ensures deleted == (e in old(deps))
      ensures Snapshot() == old(Snapshot()).(deps := old(deps) - {e})
    {
      deleted := e in deps;
      deps := deps - {e};
    }

    /** `DELETE FROM task_refs` for one row. */
    method DeleteRef(id: int) returns (deleted: bool)
      requires Valid()
      modifies this
      ensures Valid()
      ensures deleted == (id in old(refs))
      ensures Snapshot() == old(Snapshot()).(refs := old(refs) - {id})
    {
      deleted := id in refs;
      refs := refs - {id};
    }

    /** `DELETE FROM tasks`: its references and every edge touching it go with it. */
    method DeleteTask(id: int) returns (deleted: bool)
      requires Valid()
      modifies this
      ensures Valid()
      ensures deleted == (id in old(tasks))
      ensures Snapshot() == old(Snapshot()).(
        tasks := old(tasks) - {id},
        refs := RefsWithoutTask(old(refs), id),
        deps := EdgesWithoutTask(old(deps), id))
      ensures forall k :: k in refs ==> refs[k].taskId != id
      ensures forall e :: e in deps ==> e.task != id && e.prerequisite != id
    {
      deleted := id in tasks;
      tasks := tasks - {id};
      refs := RefsWithoutTask(refs, id);
      deps := EdgesWithoutTask(deps, id);
    }

    /** `DELETE FROM people`: tasks assigned to the person become unassigned. */
    method DeletePerson(id: int) returns (deleted: bool)
      requires Valid()
      modifies this
      ensures Valid()
      ensures deleted == (id in old(people))
      ensures Snapshot() == old(Snapshot()).(
        people := old(people) - {id},
        tasks := TasksWithoutAssignee(old(tasks), id))
    {
      deleted := id in people;
      people := people - {id};
      tasks := TasksWithoutAssignee(tasks, id);
    }

    /** `DELETE FROM content_items`: tasks linked to the item lose the link. */
    method DeleteContentItem(id: int) returns (deleted: bool)
      requires Valid()
      modifies this
      ensures Valid()
      ensures deleted == (id in old(contentItems))
      ensures Snapshot() == old(Snapshot()).(
        contentItems := old(contentItems) - {id},
        tasks := TasksWithoutContent(old(tasks), id))
    {
      deleted := id in contentItems;
      contentItems := contentItems - {id};
      tasks := TasksWithoutContent(tasks, id);
    }

    /**
     * A full scan of `tasks`. It visits ids in ascending order, every id the
     * sequence has handed out, and keeps those still stored.
     */
    method ScanTasks() returns (rows: seq<TableRow>)
      requires Valid()
      ensures IsScan(rows, tasks)
    {
      rows := [];
      var id := 1;
      while id < nextTaskId
        invariant 1 <= id <= nextTaskId
        invariant DistinctIds(rows)
        invariant forall i :: 0 <= i < |rows| ==>
          rows[i].id in tasks && rows[i].task == tasks[rows[i].id] && rows[i].id < id
        invariant (set i | 0 <= i < |rows| :: rows[i].id) == set k | k in tasks && k < id
      {
        if id in tasks {
          ghost var before := rows;
          rows := rows + [TableRow(id, tasks[id])];
          assert (set i | 0 <= i < |rows| :: rows[i].id) == (set i | 0 <= i < |before| :: before[i].id) + {id} by {
            forall i | 0 <= i < |before| ensures rows[i] == before[i] { }
            assert rows[|before|].id == id;
          }
        }
        id := id + 1;
      }
    }

    /**
     * `GET /api/digest` against the stored rows. Whatever order the table is
     * scanned in, the outcome is the digest of that scan.
     */
    method DailyDigest(today: Date, to: Option<string>, storageUp: bool, transportUp: bool)
      returns (o: Digest.DigestOutcome, ghost scan: seq<TableRow>)
      requires Valid()
      ensures IsScan(scan, tasks) && o == Digest.RunDigest(scan, people, today, to, storageUp, transportUp)
      ensures forall rows :: IsScan(rows, tasks) ==> o == Digest.RunDigest(rows, people, today, to, storageUp, transportUp)
    {
      var scanned := ScanTasks();
      scan := scanned;
      o := Digest.RunDigest(scanned, people, today, to, storageUp, transportUp);
      forall rows | IsScan(rows, tasks)
        ensures o == Digest.RunDigest(rows, people, today, to, storageUp, transportUp)
      {
        ScansAgree(scanned, rows, tasks);
        Digest.DigestRowsScanOrder(scanned, rows, people, today);
      }
    }
  }
}
