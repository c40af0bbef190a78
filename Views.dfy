/** The viewsets of yumljira/apps/projects/views.py over the store: the
    `get_object` guards, and what `perform_create`, `perform_update` and
    `perform_destroy` write. */
module Views {
  import opened Common
  import opened Models
  import Serializers

  /** The viewset actions the guards distinguish. */
  datatype Action = Create | Update | PartialUpdate | Destroy | Retrieve | List

  // ---------------------------------------------------------------------------
  // `get_object` guards (`None` is `Http404`)
  // ---------------------------------------------------------------------------

  /** `TimeLogViewset.get_object`: a log is found only by its own user. */
  function GetTimeLog(logs: map<Id, TimeLog>, id: Id, requester: User): (r: Option<TimeLog>)
    ensures r.Some? <==> id in logs && logs[id].user == requester
    ensures r.Some? ==> r.value == logs[id]
  {
    if id in logs && logs[id].user == requester then Some(logs[id]) else None
  }

  /** `CommentViewset.get_object`: a comment is found only by its owner. */
  function GetComment(comments: map<Id, Comment>, id: Id, requester: User): (r: Option<Comment>)
    ensures r.Some? <==> id in comments && comments[id].owner == requester
    ensures r.Some? ==> r.value == comments[id]
  {
    if id in comments && comments[id].owner == requester then Some(comments[id]) else None
  }

  /** `ColumnCreateUpdate.get_object`: an existing column is hidden only from
      `destroy`, and only when it is not removable (`removable` is the
      column's flag, whose definition is not part of this model). */
  function GetColumn(columns: map<Id, Column>, id: Id, action: Action, removable: bool): (r: Option<Column>)
    ensures r.Some? <==> id in columns && (action == Destroy ==> removable)
    ensures r.Some? ==> r.value == columns[id]
  {
    if id in columns && !(action == Destroy && !removable) then Some(columns[id]) else None
  }

  /** Only `destroy` can be refused for a column that exists. */
  lemma ColumnGuardOnlyDestroy(columns: map<Id, Column>, id: Id, action: Action, removable: bool)
    requires id in columns && action != Destroy
    ensures GetColumn(columns, id, action, removable) == Some(columns[id])
  {
  }

  // ---------------------------------------------------------------------------
  // The renumbering calls
  // ---------------------------------------------------------------------------

  /** A call of `Column.update_board_numbers(number, action, project)` or of
      `Column.update_board_numbers_exist(number, column)`, with the columns as
      they stood when it was made. */
  datatype Renumbering =
    | UpdateBoardNumbers(number: nat, action: Action, project: Id, seen: map<Id, Column>)
    | UpdateBoardNumbersExist(number: nat, column: Id, seen: map<Id, Column>)

  /** The project-creation payload; `sprint_name` is write-only and popped
      before saving. */
  datatype ProjectPayload = ProjectPayload(name: string, key: string, boardType: Option<BoardType>,
                                           sprintName: Option<string>)

  function ProjectData(p: ProjectPayload): (r: Serializers.ProjectData) {
    Serializers.ProjectData(p.boardType, p.sprintName)
  }

  /** The viewsets over one store, with the renumbering calls they have made. */
  class Api {
    const store: Store
    var renumberings: seq<Renumbering>

    constructor(store: Store)
      ensures this.store == store && renumberings == []
    {
      this.store := store;
      renumberings := [];
    }

    // -------------------------------------------------------------------------
    // `perform_create`
    // -------------------------------------------------------------------------

    /** `ProjectViewset.perform_create` on a validated payload: save the
        project stamped with its creator (the board type defaults to kanban),
        then a kanban board for a kanban project and a scrum board with the
        popped sprint name for any other. */
    method CreateProject(data: ProjectPayload, requester: User) returns (id: Id)
      requires store.Valid() && Serializers.ValidateProject(ProjectData(data)).Returned?
      modifies store
      ensures store.Valid()
      ensures var boardType := if data.boardType.Some? then data.boardType.value else Kanban;
        && id !in old(store.projects)
        && store.projects == old(store.projects)[id := Project(data.name, Some(requester), data.key, boardType)]
        && ColumnsOf(store.columns, id)
           == BoardColumns(id, if boardType == Kanban then SelectedForDevelopment else ToDo)
        && (boardType == Kanban ==> store.sprints == old(store.sprints))
        && (boardType == Scrum ==>
              exists s: Id :: s !in old(store.sprints)
                && store.sprints == old(store.sprints)[s := Sprint(id, data.sprintName.value, false)])
      ensures forall p :: p in old(store.projects) ==> ColumnsOf(store.columns, p) == old(ColumnsOf(store.columns, p))
      ensures store.tasks == old(store.tasks) && store.timeLogs == old(store.timeLogs)
      ensures store.comments == old(store.comments)
    {
      var boardType := if data.boardType.Some? then data.boardType.value else Kanban;
      id := store.AddProject(Project(data.name, Some(requester), data.key, boardType));
      assert ColumnsOf(store.columns, id) == {} by {
        forall c | c in store.columns ensures store.columns[c].project != id {
          assert store.columns[c].project in old(store.projects);
        }
      }
      if boardType == Kanban {
        store.CreateKanbanBoard(id);
      } else {
        var s := store.CreateScrumBoard(id, data.sprintName.value);
      }
    }

    /** `TaskViewset.perform_create`: the task is saved with its creator. */
    method CreateTask(data: Task, requester: User) returns (id: Id)
      requires store.Valid() && data.project in store.projects
      requires data.story.Some? ==> data.story.value in store.tasks
      modifies store
      ensures store.Valid()
      ensures id !in old(store.tasks) && store.tasks == old(store.tasks)[id := data.(createdBy := Some(requester))]
      ensures store.projects == old(store.projects) && store.columns == old(store.columns)
      ensures store.sprints == old(store.sprints)
      ensures store.timeLogs == old(store.timeLogs) && store.comments == old(store.comments)
    {
      id := store.AddTask(data.(createdBy := Some(requester)));
    }

    /** `TimeLogViewset.perform_create`: the log is saved as the requester's. */
    method CreateTimeLog(data: TimeLog, requester: User) returns (id: Id)
      requires store.Valid() && (data.task.Some? ==> data.task.value in store.tasks)
      modifies store
      ensures store.Valid()
      ensures id !in old(store.timeLogs) && store.timeLogs == old(store.timeLogs)[id := data.(user := requester)]
      ensures forall t: Id :: store.TimeLogged(t)
                == old(store.TimeLogged(t)) + if data.task == Some(t) then data.minutes else 0
      ensures store.tasks == old(store.tasks) && store.comments == old(store.comments)
      ensures store.projects == old(store.projects)
      ensures store.sprints == old(store.sprints) && store.columns == old(store.columns)
    {
      id := store.AddTimeLog(data.(user := requester));
    }

    /** `CommentViewset.perform_create`: the comment is saved with its owner. */
    method CreateComment(data: Comment, requester: User) returns (id: Id)
      requires store.Valid() && data.task in store.tasks
      modifies store
      ensures store.Valid()
      ensures id !in old(store.comments) && store.comments == old(store.comments)[id := data.(owner := requester)]
      ensures store.tasks == old(store.tasks) && store.timeLogs == old(store.timeLogs)
      ensures store.projects == old(store.projects)
      ensures store.sprints == old(store.sprints) && store.columns == old(store.columns)
    {
      id := store.AddComment(data.(owner := requester));
    }

    // -------------------------------------------------------------------------
    // Updates and deletes behind the owner guards
    // -------------------------------------------------------------------------

    /** A patch of a log: refused as not found (and nothing changes) unless the
        requester owns it. */
    method UpdateTimeLog(id: Id, data: TimeLog, requester: User) returns (found: bool)
      requires store.Valid() && (data.task.Some? ==> data.task.value in store.tasks)
      modifies store
      ensures store.Valid()
      ensures found <==> old(GetTimeLog(store.timeLogs, id, requester)).Some?
      ensures store.timeLogs == if found then old(store.timeLogs)[id := data] else old(store.timeLogs)
      ensures store.tasks == old(store.tasks) && store.comments == old(store.comments)
      ensures store.projects == old(store.projects) && store.sprints == old(store.sprints)
      ensures store.columns == old(store.columns) && store.nextId == old(store.nextId)
    {
      found := GetTimeLog(store.timeLogs, id, requester).Some?;
      if found {
        store.UpdateTimeLog(id, data);
      }
    }

    method DestroyTimeLog(id: Id, requester: User) returns (found: bool)
      requires store.Valid()
      modifies store
      ensures store.Valid()
      ensures found <==> old(GetTimeLog(store.timeLogs, id, requester)).Some?
      ensures store.timeLogs == if found then old(store.timeLogs) - {id} else old(store.timeLogs)
      ensures store.tasks == old(store.tasks) && store.comments == old(store.comments)
      ensures store.projects == old(store.projects) && store.sprints == old(store.sprints)
      ensures store.columns == old(store.columns) && store.nextId == old(store.nextId)
    {
      found := GetTimeLog(store.timeLogs, id, requester).Some?;
      if found {
        store.DeleteTimeLog(id);
      }
    }

    method UpdateComment(id: Id, data: Comment, requester: User) returns (found: bool)
      requires store.Valid() && data.task in store.tasks
      modifies store
      ensures store.Valid()
      ensures found <==> old(GetComment(store.comments, id, requester)).Some?
      ensures store.comments == if found then old(store.comments)[id := data] else old(store.comments)
      ensures store.tasks == old(store.tasks) && store.timeLogs == old(store.timeLogs)
      ensures store.projects == old(store.projects) && store.sprints == old(store.sprints)
      ensures store.columns == old(store.columns) && store.nextId == old(store.nextId)
    {
      found := GetComment(store.comments, id, requester).Some?;
      if found {
        store.UpdateComment(id, data);
      }
    }

    method DestroyComment(id: Id, requester: User) returns (found: bool)
      requires store.Valid()
      modifies store
      ensures store.Valid()
      ensures found <==> old(GetComment(store.comments, id, requester)).Some?
      ensures store.comments == if found then old(store.comments) - {id} else old(store.comments)
      ensures store.tasks == old(store.tasks) && store.timeLogs == old(store.timeLogs)
      ensures store.projects == old(store.projects) && store.sprints == old(store.sprints)
      ensures store.columns == old(store.columns) && store.nextId == old(store.nextId)
    {
      found := GetComment(store.comments, id, requester).Some?;
      if found {
        store.DeleteComment(id);
      }
    }

    // -------------------------------------------------------------------------
    // Columns: renumber first, then write
    // -------------------------------------------------------------------------

    /** `ColumnCreateUpdate.perform_create`: always renumber, then insert
        (refused like any insert if the number is still taken). `renumbered`
        is the columns as the renumbering leaves them. */
    method CreateColumn(c: Column, renumbered: map<Id, Column>) returns (r: Option<Id>)
      requires store.Valid() && c.project in store.projects
      requires Renumbered(store.columns, renumbered)
      modifies this, store
      ensures store.Valid()
      ensures renumberings == old(renumberings) + [UpdateBoardNumbers(c.number, Create, c.project, old(store.columns))]
      ensures r.None? <==> NumberTaken(renumbered, c.project, c.number)
      ensures store.columns == if r.Some? then renumbered[r.value := c] else renumbered
      ensures r.Some? ==> r.value !in renumbered
      ensures store.projects == old(store.projects) && store.tasks == old(store.tasks)
      ensures store.sprints == old(store.sprints)
      ensures store.timeLogs == old(store.timeLogs) && store.comments == old(store.comments)
    {
      renumberings := renumberings + [UpdateBoardNumbers(c.number, Create, c.project, store.columns)];
      store.Renumber(renumbered);
      r := store.InsertColumn(c);
    }

    /** `ColumnCreateUpdate.perform_update`: renumber only when a non-zero
        `number_in_board` is supplied, then save the new fields `c` (which
        carry the supplied number, or the column's own when none is). */
    method UpdateColumn(id: Id, c: Column, number: Option<nat>, renumbered: map<Id, Column>)
      returns (ok: bool)
      requires store.Valid() && id in store.columns && c.project in store.projects
      requires Renumbered(store.columns, renumbered)
      requires number.Some? && number.value != 0 ==> c.number == number.value
      modifies this, store
      ensures store.Valid()
      ensures var supplied := number.Some? && number.value != 0;
        && renumberings == old(renumberings)
             + (if supplied then [UpdateBoardNumbersExist(number.value, id, old(store.columns))] else [])
        && var base := if supplied then renumbered else old(store.columns);
           && (ok <==> !NumberTaken(base - {id}, c.project, c.number))
           && store.columns == if ok then base[id := c] else base
      ensures store.projects == old(store.projects) && store.tasks == old(store.tasks)
      ensures store.sprints == old(store.sprints) && store.timeLogs == old(store.timeLogs)
      ensures store.comments == old(store.comments) && store.nextId == old(store.nextId)
    {
      if number.Some? && number.value != 0 {
        renumberings := renumberings + [UpdateBoardNumbersExist(number.value, id, store.columns)];
        store.Renumber(renumbered);
      }
      ok := store.UpdateColumn(id, c);
    }

    /** `ColumnCreateUpdate.perform_destroy`: a column that is not removable
        is not found; otherwise renumber with the column's own number and
        project, then delete it. */
    method DestroyColumn(id: Id, removable: bool, renumbered: map<Id, Column>) returns (found: bool)
      requires store.Valid()
      requires Renumbered(store.columns, renumbered)
      modifies this, store
      ensures store.Valid()
      ensures found <==> old(GetColumn(store.columns, id, Destroy, removable)).Some?
      ensures !found ==> renumberings == old(renumberings) && store.columns == old(store.columns)
      ensures found ==>
        && renumberings == old(renumberings)
             + [UpdateBoardNumbers(old(store.columns)[id].number, Destroy, old(store.columns)[id].project, old(store.columns))]
        && store.columns == renumbered - {id}
      ensures store.projects == old(store.projects) && store.tasks == old(store.tasks)
      ensures store.sprints == old(store.sprints) && store.timeLogs == old(store.timeLogs)
      ensures store.comments == old(store.comments) && store.nextId == old(store.nextId)
    {
      var col := GetColumn(store.columns, id, Destroy, removable);
      found := col.Some?;
      if found {
        renumberings := renumberings + [UpdateBoardNumbers(col.value.number, Destroy, col.value.project, store.columns)];
        store.Renumber(renumbered);
        store.DeleteColumn(id);
      }
    }
  }
}
