/** The records of yumljira/apps/projects/models.py and the database they live
    in: board provisioning, the unique column numbers of a board, the logged
    time of a task, and what deleting a task does to its subtasks, logs and
    comments. */
module Models {
  import opened Common

  /** Primary keys and users (a user is known by its key). */
  type Id = nat
  type User = nat

  datatype Project = Project(name: string, createdBy: Option<User>, key: string, boardType: BoardType)
  datatype Sprint = Sprint(project: Id, name: string, isClosed: bool)
  datatype Column = Column(project: Id, title: string, number: nat, shouldShow: bool)
  datatype Task = Task(project: Id, title: string, createdBy: Option<User>, taskType: TaskType,
                       story: Option<Id>, column: nat)
  datatype TimeLog = TimeLog(task: Option<Id>, user: User, minutes: nat)
  datatype Comment = Comment(task: Id, owner: User, content: string)

  /** The column titles of the two boards, as the module docstring at
      models.py:20-25 lists them (choices.py, which defines them, is not part
      of this model). */
  const Backlog := "BACKLOG"
  const ToDo := "TO DO"
  const SelectedForDevelopment := "SELECTED FOR DEVELOPMENT"
  const InProgress := "IN PROGRESS"
  const Done := "DONE"

  /** `unique_together = ['project', 'number_in_board']`. */
  predicate UniqueNumbers(columns: map<Id, Column>) {
    forall a, b :: a in columns && b in columns && a != b && columns[a].project == columns[b].project
      ==> columns[a].number != columns[b].number
  }

  /** What a renumbering of the columns may do (the bodies of
      `Column.update_board_numbers` and `update_board_numbers_exist` are not
      part of this model): change the numbers of existing columns, keep every
      other field, and leave the numbers unique. */
  predicate Renumbered(before: map<Id, Column>, after: map<Id, Column>) {
    && after.Keys == before.Keys
    && (forall id :: id in after ==> after[id] == before[id].(number := after[id].number))
    && UniqueNumbers(after)
  }

  /** Whether some column of `project` already has `number`. */
  predicate NumberTaken(columns: map<Id, Column>, project: Id, number: nat) {
    exists id :: id in columns && columns[id].project == project && columns[id].number == number
  }

  /** The columns of a project, as values. */
  function ColumnsOf(columns: map<Id, Column>, project: Id): (r: set<Column>) {
    set id | id in columns && columns[id].project == project :: columns[id]
  }

  /** The four columns `_create_columns(second)` makes for `project`. */
  function BoardColumns(project: Id, second: string): (r: set<Column>) {
    { Column(project, Backlog, 1, false), Column(project, second, 2, true),
      Column(project, InProgress, 3, true), Column(project, Done, 4, true) }
  }

  // ---------------------------------------------------------------------------
  // `Task.time_logged`
  // ---------------------------------------------------------------------------

  /** The minutes of the logs of task `t` among the logs with key below `k`. */
  function LoggedBelow(logs: map<Id, TimeLog>, t: Id, k: nat): (r: nat) {
    if k == 0 then 0
    else
      var own := if k - 1 in logs && logs[k - 1].task == Some(t) then logs[k - 1].minutes else 0;
      LoggedBelow(logs, t, k - 1) + own
  }

  /** A task without logs has logged nothing. */
  lemma {:induction false} NoLogsNoTime(logs: map<Id, TimeLog>, t: Id, k: nat)
    requires forall id :: id in logs ==> logs[id].task != Some(t)
    ensures LoggedBelow(logs, t, k) == 0
  {
    if k > 0 {
      NoLogsNoTime(logs, t, k - 1);
    }
  }

  /** Keys at or above the bound do not count, so any bound above every key
      gives the same sum. */
  lemma {:induction false} LoggedBound(logs: map<Id, TimeLog>, t: Id, k: nat, k': nat)
    requires k <= k' && forall id :: id in logs ==> id < k
    ensures LoggedBelow(logs, t, k') == LoggedBelow(logs, t, k)
  {
    if k < k' {
      LoggedBound(logs, t, k, k' - 1);
    }
  }

  /** A new log with a fresh key adds its minutes to its task's sum and
      nothing to any other task's. */
  lemma {:induction false} LoggedAdd(logs: map<Id, TimeLog>, t: Id, k: nat, id: Id, l: TimeLog)
    requires id !in logs && id < k
    ensures LoggedBelow(logs[id := l], t, k)
         == LoggedBelow(logs, t, k) + if l.task == Some(t) then l.minutes else 0
  {
    if k - 1 == id {
      LoggedSame(logs, logs[id := l], t, id);
    } else {
      LoggedAdd(logs, t, k - 1, id, l);
    }
  }

  /** Two stores of logs that agree on the logs of `t` give `t` the same sum. */
  lemma {:induction false} LoggedSame(logs: map<Id, TimeLog>, logs': map<Id, TimeLog>, t: Id, k: nat)
    requires forall id :: id < k && id in logs && logs[id].task == Some(t) ==> id in logs' && logs'[id] == logs[id]
    requires forall id :: id < k && id in logs' && logs'[id].task == Some(t) ==> id in logs && logs[id] == logs'[id]
    ensures LoggedBelow(logs', t, k) == LoggedBelow(logs, t, k)
  {
    if k > 0 {
      LoggedSame(logs, logs', t, k - 1);
    }
  }

  // ---------------------------------------------------------------------------
  // The `story` cascade
  // ---------------------------------------------------------------------------

  /** Every task attached to a doomed story is doomed too (`on_delete=CASCADE`). */
  predicate Closed(tasks: map<Id, Task>, doomed: set<Id>) {
    forall id :: id in tasks && tasks[id].story.Some? && tasks[id].story.value in doomed ==> id in doomed
  }

  /** Every doomed task reaches `root` through its chain of stories: `depth`
      strictly decreases along each `story` link down to the root. */
  predicate Rooted(tasks: map<Id, Task>, root: Id, doomed: set<Id>, depth: map<Id, nat>) {
    && root in doomed
    && doomed <= depth.Keys
    && forall id :: id in doomed && id != root ==>
         && id in tasks && tasks[id].story.Some?
         && tasks[id].story.value in doomed
         && depth[tasks[id].story.value] < depth[id]
  }

  /** A rooted set is contained in every closed set holding the root: the
      cascade deletes nothing beyond what `CASCADE` demands. */
  lemma RootedIsLeast(tasks: map<Id, Task>, root: Id, doomed: set<Id>, depth: map<Id, nat>, s: set<Id>)
    requires Rooted(tasks, root, doomed, depth) && Closed(tasks, s) && root in s
    ensures doomed <= s
  {
    forall id | id in doomed ensures id in s {
      RootedMember(tasks, root, doomed, depth, s, id, depth[id]);
    }
  }

  lemma {:induction false} RootedMember(tasks: map<Id, Task>, root: Id, doomed: set<Id>, depth: map<Id, nat>,
                                        s: set<Id>, id: Id, d: nat)
    requires Rooted(tasks, root, doomed, depth) && Closed(tasks, s) && root in s
    requires id in doomed && depth[id] == d
    ensures id in s
    decreases d
  {
    if id != root {
      var parent := tasks[id].story.value;
      RootedMember(tasks, root, doomed, depth, s, parent, depth[parent]);
    }
  }

  /** The tasks attached to a story in `doomed` but not yet in it. */
  function Attached(tasks: map<Id, Task>, doomed: set<Id>): (r: set<Id>)
    ensures r <= tasks.Keys && r !! doomed
  {
    set id | id in tasks && tasks[id].story.Some? && tasks[id].story.value in doomed && id !in doomed
  }

  /** The tasks deleted with `t`: `t` and, through `story`'s `CASCADE`,
      every task attached to a deleted one. */
  method Cascade(tasks: map<Id, Task>, t: Id) returns (doomed: set<Id>, ghost depth: map<Id, nat>)
    requires t in tasks
    ensures doomed <= tasks.Keys
    ensures Closed(tasks, doomed)
    ensures Rooted(tasks, t, doomed, depth)
  {
    doomed := {t};
    depth := map[t := 0];
    ghost var k: nat := 0;
    var next := Attached(tasks, doomed);
    while next != {}
      invariant doomed <= tasks.Keys && next == Attached(tasks, doomed)
      invariant Rooted(tasks, t, doomed, depth)
      invariant forall id :: id in doomed ==> depth[id] <= k
      decreases |tasks.Keys - doomed|
    {
      var grown := doomed + next;
      Shrinks(tasks.Keys, doomed, next);
      GrowRooted(tasks, t, doomed, depth, k);
      depth := Deepen(depth, doomed, next, k);
      doomed := grown;
      k := k + 1;
      next := Attached(tasks, doomed);
    }
  }

  /** Each round of the cascade leaves fewer tasks to reach. */
  lemma Shrinks(keys: set<Id>, doomed: set<Id>, next: set<Id>)
    requires next <= keys && next !! doomed && next != {}
    ensures |keys - (doomed + next)| < |keys - doomed|
  {
    var x :| x in next;
    var r, r' := keys - doomed, keys - (doomed + next);
    assert r' <= r - {x};
    assert x in r;
    assert |r - {x}| == |r| - 1;
    SubsetCard(r', r - {x});
  }

  lemma SubsetCard(a: set<Id>, b: set<Id>)
    requires a <= b
    ensures |a| <= |b|
  {
    assert b == a + (b - a);
  }

  /** The depths after one round: the new tasks one level below `k`. */
  ghost function Deepen(depth: map<Id, nat>, doomed: set<Id>, next: set<Id>, k: nat): (r: map<Id, nat>)
    requires doomed <= depth.Keys
  {
    map id | id in doomed + next :: if id in doomed then depth[id] else k + 1
  }

  /** One round of the cascade: the tasks attached to a rooted set, placed
      one level below the deepest, keep it rooted. */
  lemma GrowRooted(tasks: map<Id, Task>, root: Id, doomed: set<Id>, depth: map<Id, nat>, k: nat)
    requires Rooted(tasks, root, doomed, depth)
    requires forall id :: id in doomed ==> depth[id] <= k
    ensures var next := Attached(tasks, doomed);
      var deeper := Deepen(depth, doomed, next, k);
      && Rooted(tasks, root, doomed + next, deeper)
      && forall id :: id in doomed + next ==> deeper[id] <= k + 1
  {
  }

  // ---------------------------------------------------------------------------
  // Integrity of the tables
  // ---------------------------------------------------------------------------

  predicate KeysBelow<T>(m: map<Id, T>, n: nat) {
    forall id :: id in m ==> id < n
  }

  predicate SprintsLinked(sprints: map<Id, Sprint>, projects: map<Id, Project>) {
    forall id :: id in sprints ==> sprints[id].project in projects
  }

  predicate ColumnsLinked(columns: map<Id, Column>, projects: map<Id, Project>) {
    forall id :: id in columns ==> columns[id].project in projects
  }

  predicate TasksLinked(tasks: map<Id, Task>, projects: map<Id, Project>) {
    && (forall id :: id in tasks ==> tasks[id].project in projects)
    && (forall id :: id in tasks && tasks[id].story.Some? ==> tasks[id].story.value in tasks)
  }

  predicate LogsLinked(logs: map<Id, TimeLog>, tasks: map<Id, Task>) {
    forall id :: id in logs && logs[id].task.Some? ==> logs[id].task.value in tasks
  }

  predicate CommentsLinked(comments: map<Id, Comment>, tasks: map<Id, Task>) {
    forall id :: id in comments ==> comments[id].task in tasks
  }

  /** Deleting a closed set of tasks, with their comments, and detaching their
      logs leaves every foreign key pointing at an existing row. */
  lemma DeleteKeepsLinks(projects: map<Id, Project>, tasks: map<Id, Task>, logs: map<Id, TimeLog>,
                         comments: map<Id, Comment>, doomed: set<Id>, n: nat)
    requires TasksLinked(tasks, projects) && LogsLinked(logs, tasks) && CommentsLinked(comments, tasks)
    requires Closed(tasks, doomed)
    requires KeysBelow(tasks, n) && KeysBelow(logs, n) && KeysBelow(comments, n)
    ensures TasksLinked(tasks - doomed, projects)
    ensures LogsLinked(Detach(logs, doomed), tasks - doomed)
    ensures CommentsLinked(KeepComments(comments, doomed), tasks - doomed)
    ensures KeysBelow(tasks - doomed, n) && KeysBelow(Detach(logs, doomed), n)
    ensures KeysBelow(KeepComments(comments, doomed), n)
  {
  }

  /** The database itself: one table per model, keys from a shared counter. */
  class Store {
    var projects: map<Id, Project>
    var sprints: map<Id, Sprint>
    var columns: map<Id, Column>
    var tasks: map<Id, Task>
    var timeLogs: map<Id, TimeLog>
    var comments: map<Id, Comment>
    var nextId: nat

    /** Keys below the counter, foreign keys that point at existing rows, and
        unique column numbers within each project. */
    predicate Valid()
      reads this
    {
      && KeysBelow(projects, nextId) && KeysBelow(sprints, nextId) && KeysBelow(columns, nextId)
      && KeysBelow(tasks, nextId) && KeysBelow(timeLogs, nextId) && KeysBelow(comments, nextId)
      && SprintsLinked(sprints, projects) && ColumnsLinked(columns, projects)
      && TasksLinked(tasks, projects) && LogsLinked(timeLogs, tasks) && CommentsLinked(comments, tasks)
      && UniqueNumbers(columns)
    }

    constructor()
      ensures Valid()
      ensures projects == map[] && sprints == map[] && columns == map[]
      ensures tasks == map[] && timeLogs == map[] && comments == map[]
    {
      projects, sprints, columns := map[], map[], map[];
      tasks, timeLogs, comments := map[], map[], map[];
      nextId := 0;
    }

    /** `Task.time_logged`: the sum of the minutes of the task's logs. */
    function TimeLogged(t: Id): (r: nat)
      reads this
    {
      LoggedBelow(timeLogs, t, nextId)
    }

    // -------------------------------------------------------------------------
    // Inserts
    // -------------------------------------------------------------------------

    method AddProject(p: Project) returns (id: Id)
      requires Valid()
      modifies this
      ensures Valid()
      ensures id == old(nextId) && id !in old(projects)
      ensures projects == old(projects)[id := p] && nextId == old(nextId) + 1
      ensures sprints == old(sprints) && columns == old(columns) && tasks == old(tasks)
      ensures timeLogs == old(timeLogs) && comments == old(comments)
    {
      id := nextId;
      projects := projects[id := p];
      nextId := nextId + 1;
    }

    method AddSprint(s: Sprint) returns (id: Id)
      requires Valid() && s.project in projects
      modifies this
      ensures Valid()
      ensures id == old(nextId) && id !in old(sprints)
      ensures sprints == old(sprints)[id := s] && nextId == old(nextId) + 1
      ensures projects == old(projects) && columns == old(columns) && tasks == old(tasks)
      ensures timeLogs == old(timeLogs) && comments == old(comments)
    {
      id := nextId;
      sprints := sprints[id := s];
      nextId := nextId + 1;
    }

    /** `Column.objects.create(...)`: refused as an `IntegrityError` (`None`)
        when the project already has a column with that number. */
    method InsertColumn(c: Column) returns (r: Option<Id>)
      requires Valid() && c.project in projects
      modifies this
      ensures Valid()
      ensures r.None? <==> old(NumberTaken(columns, c.project, c.number))
      ensures r.None? ==> columns == old(columns) && nextId == old(nextId)
      ensures r.Some? ==>
        && r.value == old(nextId) && r.value !in old(columns)
        && columns == old(columns)[r.value := c] && nextId == old(nextId) + 1
      ensures projects == old(projects) && sprints == old(sprints) && tasks == old(tasks)
      ensures timeLogs == old(timeLogs) && comments == old(comments)
    {
      if NumberTaken(columns, c.project, c.number) {
        return None;
      }
      var id := nextId;
      columns := columns[id := c];
      nextId := nextId + 1;
      r := Some(id);
    }

    /** Replaces a column's fields (`serializer.save()` on an update): refused
        like an insert when another column of the project has the new number. */
    method UpdateColumn(id: Id, c: Column) returns (ok: bool)
      requires Valid() && id in columns && c.project in projects
      modifies this
      ensures Valid()
      ensures ok <==> !old(NumberTaken(columns - {id}, c.project, c.number))
      ensures columns == if ok then old(columns)[id := c] else old(columns)
      ensures projects == old(projects) && sprints == old(sprints) && tasks == old(tasks)
      ensures timeLogs == old(timeLogs) && comments == old(comments) && nextId == old(nextId)
    {
      if NumberTaken(columns - {id}, c.project, c.number) {
        return false;
      }
      forall a | a in columns && a != id && columns[a].project == c.project
        ensures columns[a].number != c.number
      {
        assert a in columns - {id};
      }
      columns := columns[id := c];
      ok := true;
    }

    /** Applies a renumbering of the columns. */
    method Renumber(renumbered: map<Id, Column>)
      requires Valid() && Renumbered(columns, renumbered)
      modifies this
      ensures Valid()
      ensures columns == renumbered
      ensures projects == old(projects) && sprints == old(sprints) && tasks == old(tasks)
      ensures timeLogs == old(timeLogs) && comments == old(comments) && nextId == old(nextId)
    {
      columns := renumbered;
    }

    method DeleteColumn(id: Id)
      requires Valid() && id in columns
      modifies this
      ensures Valid()
      ensures columns == old(columns) - {id}
      ensures projects == old(projects) && sprints == old(sprints) && tasks == old(tasks)
      ensures timeLogs == old(timeLogs) && comments == old(comments) && nextId == old(nextId)
    {
      columns := columns - {id};
    }

    method AddTask(t: Task) returns (id: Id)
      requires Valid() && t.project in projects
      requires t.story.Some? ==> t.story.value in tasks
      modifies this
      ensures Valid()
      ensures id == old(nextId) && id !in old(tasks)
      ensures tasks == old(tasks)[id := t] && nextId == old(nextId) + 1
      ensures projects == old(projects) && sprints == old(sprints) && columns == old(columns)
      ensures timeLogs == old(timeLogs) && comments == old(comments)
    {
      id := nextId;
      tasks := tasks[id := t];
      nextId := nextId + 1;
    }

    /** Saving a log: its task's logged time grows by its minutes, every other
        task's stays. */
    method AddTimeLog(l: TimeLog) returns (id: Id)
      requires Valid() && (l.task.Some? ==> l.task.value in tasks)
      modifies this
      ensures Valid()
      ensures id == old(nextId) && id !in old(timeLogs)
      ensures timeLogs == old(timeLogs)[id := l] && nextId == old(nextId) + 1
      ensures forall t: Id :: TimeLogged(t) == old(TimeLogged(t)) + if l.task == Some(t) then l.minutes else 0
      ensures projects == old(projects) && sprints == old(sprints) && columns == old(columns)
      ensures tasks == old(tasks) && comments == old(comments)
    {
      id := nextId;
      forall t: Id ensures LoggedBelow(timeLogs[id := l], t, id + 1)
                    == LoggedBelow(timeLogs, t, id) + if l.task == Some(t) then l.minutes else 0 {
        LoggedAdd(timeLogs, t, id + 1, id, l);
        LoggedBound(timeLogs, t, id, id + 1);
      }
      timeLogs := timeLogs[id := l];
      nextId := nextId + 1;
    }

    method AddComment(c: Comment) returns (id: Id)
      requires Valid() && c.task in tasks
      modifies this
      ensures Valid()
      ensures id == old(nextId) && id !in old(comments)
      ensures comments == old(comments)[id := c] && nextId == old(nextId) + 1
      ensures projects == old(projects) && sprints == old(sprints) && columns == old(columns)
      ensures tasks == old(tasks) && timeLogs == old(timeLogs)
    {
      id := nextId;
      comments := comments[id := c];
      nextId := nextId + 1;
    }

    /** Replaces a log's fields (an update the owner guard let through). */
    method UpdateTimeLog(id: Id, l: TimeLog)
      requires Valid() && id in timeLogs && (l.task.Some? ==> l.task.value in tasks)
      modifies this
      ensures Valid()
      ensures timeLogs == old(timeLogs)[id := l]
      ensures projects == old(projects) && sprints == old(sprints) && columns == old(columns)
      ensures tasks == old(tasks) && comments == old(comments) && nextId == old(nextId)
    {
      timeLogs := timeLogs[id := l];
    }

    method DeleteTimeLog(id: Id)
      requires Valid() && id in timeLogs
      modifies this
      ensures Valid()
      ensures timeLogs == old(timeLogs) - {id}
      ensures projects == old(projects) && sprints == old(sprints) && columns == old(columns)
      ensures tasks == old(tasks) && comments == old(comments) && nextId == old(nextId)
    {
      timeLogs := timeLogs - {id};
    }

    method UpdateComment(id: Id, c: Comment)
      requires Valid() && id in comments && c.task in tasks
      modifies this
      ensures Valid()
      ensures comments == old(comments)[id := c]
      ensures projects == old(projects) && sprints == old(sprints) && columns == old(columns)
      ensures tasks == old(tasks) && timeLogs == old(timeLogs) && nextId == old(nextId)
    {
      comments := comments[id := c];
    }

    method DeleteComment(id: Id)
      requires Valid() && id in comments
      modifies this
      ensures Valid()
      ensures comments == old(comments) - {id}
      ensures projects == old(projects) && sprints == old(sprints) && columns == old(columns)
      ensures tasks == old(tasks) && timeLogs == old(timeLogs) && nextId == old(nextId)
    {
      comments := comments - {id};
    }

    // -------------------------------------------------------------------------
    // Board provisioning
    // -------------------------------------------------------------------------

    /** `Project._create_columns(second)` for a project that has no columns
        yet: exactly the four board columns, numbered 1 to 4, only the backlog
        hidden. */
    method CreateColumns(project: Id, second: string)
      requires Valid() && project in projects && ColumnsOf(columns, project) == {}
      modifies this
      ensures Valid()
      ensures ColumnsOf(columns, project) == BoardColumns(project, second)
      ensures forall p :: p != project ==> ColumnsOf(columns, p) == old(ColumnsOf(columns, p))
      ensures old(columns).Keys <= columns.Keys
      ensures forall id :: id in old(columns) ==> columns[id] == old(columns)[id]
      ensures projects == old(projects) && sprints == old(sprints) && tasks == old(tasks)
      ensures timeLogs == old(timeLogs) && comments == old(comments)
    {
      var backlog, second', inProgress, done :=
        Column(project, Backlog, 1, false), Column(project, second, 2, true),
        Column(project, InProgress, 3, true), Column(project, Done, 4, true);
      AddBoardColumn(backlog);
      assert ColumnsOf(columns, project) == {backlog};
      AddBoardColumn(second');
      assert ColumnsOf(columns, project) == {backlog, second'};
      AddBoardColumn(inProgress);
      assert ColumnsOf(columns, project) == {backlog, second', inProgress};
      AddBoardColumn(done);
    }

    /** One `Column.objects.create(...)` of `_create_columns`, whose number no
        column of the project has yet. */
    method AddBoardColumn(c: Column)
      requires Valid() && c.project in projects
      requires forall x :: x in ColumnsOf(columns, c.project) ==> x.number != c.number
      modifies this
      ensures Valid()
      ensures ColumnsOf(columns, c.project) == old(ColumnsOf(columns, c.project)) + {c}
      ensures forall p :: p != c.project ==> ColumnsOf(columns, p) == old(ColumnsOf(columns, p))
      ensures old(columns).Keys <= columns.Keys
      ensures forall id :: id in old(columns) ==> columns[id] == old(columns)[id]
      ensures projects == old(projects) && sprints == old(sprints) && tasks == old(tasks)
      ensures timeLogs == old(timeLogs) && comments == old(comments)
    {
      forall id | id in columns && columns[id].project == c.project
        ensures columns[id].number != c.number
      {
        assert columns[id] in ColumnsOf(columns, c.project);
      }
      ghost var prev := columns;
      var r := InsertColumn(c);
      ColumnsOfInsert(prev, r.value, c);
    }

    /** `create_kanban_board`. */
    method CreateKanbanBoard(project: Id)
      requires Valid() && project in projects && ColumnsOf(columns, project) == {}
      modifies this
      ensures Valid()
      ensures ColumnsOf(columns, project) == BoardColumns(project, SelectedForDevelopment)
      ensures forall p :: p != project ==> ColumnsOf(columns, p) == old(ColumnsOf(columns, p))
      ensures projects == old(projects) && sprints == old(sprints) && tasks == old(tasks)
      ensures timeLogs == old(timeLogs) && comments == old(comments)
    {
      CreateColumns(project, SelectedForDevelopment);
    }

    /** `create_scrum_board(name)`: the scrum columns and one open sprint. */
    method CreateScrumBoard(project: Id, sprintName: string) returns (sprint: Id)
      requires Valid() && project in projects && ColumnsOf(columns, project) == {}
      modifies this
      ensures Valid()
      ensures ColumnsOf(columns, project) == BoardColumns(project, ToDo)
      ensures forall p :: p != project ==> ColumnsOf(columns, p) == old(ColumnsOf(columns, p))
      ensures sprint !in old(sprints) && sprints == old(sprints)[sprint := Sprint(project, sprintName, false)]
      ensures projects == old(projects) && tasks == old(tasks)
      ensures timeLogs == old(timeLogs) && comments == old(comments)
    {
      CreateColumns(project, ToDo);
      sprint := AddSprint(Sprint(project, sprintName, false));
    }

    // -------------------------------------------------------------------------
    // Deleting a task
    // -------------------------------------------------------------------------

    /** `task.delete()`: the task and its cascade go, with their comments
        (`CASCADE`); their logs stay, detached (`SET_NULL`). */
    method DeleteTask(t: Id) returns (ghost doomed: set<Id>)
      requires Valid() && t in tasks
      modifies this
      ensures Valid()
      ensures t in doomed && Closed(old(tasks), doomed)
      ensures forall s :: Closed(old(tasks), s) && t in s ==> doomed <= s
      ensures tasks == old(tasks) - doomed
      ensures comments == KeepComments(old(comments), doomed)
      ensures timeLogs == Detach(old(timeLogs), doomed)
      ensures forall u: Id :: u !in doomed ==> TimeLogged(u) == old(TimeLogged(u))
      ensures projects == old(projects) && sprints == old(sprints) && columns == old(columns)
      ensures nextId == old(nextId)
    {
      var gone, depth := Cascade(tasks, t);
      forall s | Closed(tasks, s) && t in s ensures gone <= s {
        RootedIsLeast(tasks, t, gone, depth, s);
      }
      doomed := gone;
      DeleteKeepsLinks(projects, tasks, timeLogs, comments, gone, nextId);
      var tasks' := tasks - gone;
      comments := KeepComments(comments, gone);
      forall u: Id | u !in gone ensures LoggedBelow(Detach(timeLogs, gone), u, nextId) == LoggedBelow(timeLogs, u, nextId) {
        SurvivorsKeepTime(timeLogs, gone, u, nextId);
      }
      timeLogs := Detach(timeLogs, gone);
      tasks := tasks';
    }
  }

  /** The comments left once the tasks in `doomed` are deleted (`CASCADE`). */
  function KeepComments(comments: map<Id, Comment>, doomed: set<Id>): (r: map<Id, Comment>)
    ensures r.Keys <= comments.Keys
    ensures forall id :: id in r ==> r[id] == comments[id] && r[id].task !in doomed
    ensures forall id :: id in comments && comments[id].task !in doomed ==> id in r
  {
    map id | id in comments && comments[id].task !in doomed :: comments[id]
  }

  /** The logs once the tasks in `doomed` are deleted: every log stays, and a
      log of a deleted task loses its task (`SET_NULL`). */
  function Detach(logs: map<Id, TimeLog>, doomed: set<Id>): (r: map<Id, TimeLog>)
    ensures r.Keys == logs.Keys
    ensures forall id :: id in r ==> r[id].user == logs[id].user && r[id].minutes == logs[id].minutes
    ensures forall id :: id in r ==>
      r[id].task == if logs[id].task.Some? && logs[id].task.value in doomed then None else logs[id].task
  {
    map id | id in logs ::
      if logs[id].task.Some? && logs[id].task.value in doomed then logs[id].(task := None) else logs[id]
  }

  lemma ColumnsOfInsert(columns: map<Id, Column>, id: Id, c: Column)
    requires id !in columns
    ensures ColumnsOf(columns[id := c], c.project) == ColumnsOf(columns, c.project) + {c}
    ensures forall p :: p != c.project ==> ColumnsOf(columns[id := c], p) == ColumnsOf(columns, p)
  {
    var m := columns[id := c];
    assert m[id] in ColumnsOf(m, c.project);
    forall p ensures ColumnsOf(m, p) == ColumnsOf(columns, p) + (if p == c.project then {c} else {}) {
      forall x | x in ColumnsOf(m, p) ensures x in ColumnsOf(columns, p) + (if p == c.project then {c} else {}) {
        var j :| j in m && m[j].project == p && m[j] == x;
        if j != id { assert columns[j] == x; }
      }
      forall x | x in ColumnsOf(columns, p) ensures x in ColumnsOf(m, p) {
        var j :| j in columns && columns[j].project == p && columns[j] == x;
        assert m[j] == x;
      }
    }
  }

  /** Deleting tasks leaves the logged time of every surviving task as it was. */
  lemma SurvivorsKeepTime(logs: map<Id, TimeLog>, doomed: set<Id>, u: Id, k: nat)
    requires u !in doomed
    ensures LoggedBelow(Detach(logs, doomed), u, k) == LoggedBelow(logs, u, k)
  {
    LoggedSame(logs, Detach(logs, doomed), u, k);
  }
}
