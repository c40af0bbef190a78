/** The cross-field checks of `TaskSerializer.validate` and
    `ProjectSerializer.validate` (yumljira/apps/projects/serializers.py). */
module Serializers {
  import opened Common

  /** The part of a task payload `TaskSerializer.validate` reads: the payload's
      own `task_type`, and the `task_type` of the task named by `story` (a
      related task is always truthy, so "story is given" is `Some`). */
  datatype TaskData = TaskData(taskType: Option<TaskType>, storyType: Option<TaskType>)

  /** The part of a project payload `ProjectSerializer.validate` reads. */
  datatype ProjectData = ProjectData(boardType: Option<BoardType>, sprintName: Option<string>)

  const StoryInStory := FieldError("story", "Story cannot contain another story.")
  const OnlyStoryNests := FieldError("task_type", "Only story may contain subtasks.")

  /** `TaskSerializer.validate`: a task may be attached to a story only, and a
      story may not be attached to anything. The checks run only when both
      fields are present; the payload is returned unchanged when none fires. */
  function ValidateTask(data: TaskData): (r: Checked<TaskData>)
    ensures r.Returned? ==> r.data == data
    ensures r.Raised? <==>
      && data.taskType.Some? && data.storyType.Some?
      && (data.storyType.value != Story || data.taskType.value == Story)
    ensures r.Raised? ==>
      r.error == if data.storyType.value == Story then StoryInStory else OnlyStoryNests
  {
    if data.storyType.Some? && data.taskType.Some? then
      if data.taskType.value == Story && data.storyType.value == Story then Raised(StoryInStory)
      else if data.storyType.value != Story then Raised(OnlyStoryNests)
      else Returned(data)
    else Returned(data)
  }

  /** Whatever it is attached to, a story is refused: under `story` when the
      target is a story, under `task_type` otherwise. */
  lemma StoryNeverNested(storyType: TaskType)
    ensures ValidateTask(TaskData(Some(Story), Some(storyType))).Raised?
  {
  }

  /** Whenever a task attached to a story is accepted, the story is a story
      and the task is not. */
  lemma AcceptedNesting(data: TaskData)
    requires ValidateTask(data).Returned?
    requires data.taskType.Some? && data.storyType.Some?
    ensures data.storyType.value == Story && data.taskType.value != Story
  {
  }

  const KanbanHasNoSprint := FieldError("sprint_name", "Kanban board do not contain sprints")
  const ScrumNeedsSprint := FieldError("sprint_name", "Sprint name is required for scrum board.")

  /** `ProjectSerializer.validate`: a kanban board takes no sprint name and a
      scrum board needs one; `None` and `''` both count as no name. */
  function ValidateProject(data: ProjectData): (r: Checked<ProjectData>)
    ensures r.Returned? ==> r.data == data
    ensures r == Raised(KanbanHasNoSprint) <==> data.boardType == Some(Kanban) && Truthy(data.sprintName)
    ensures r == Raised(ScrumNeedsSprint) <==> data.boardType == Some(Scrum) && !Truthy(data.sprintName)
    ensures r.Raised? ==> r == Raised(KanbanHasNoSprint) || r == Raised(ScrumNeedsSprint)
  {
    if data.boardType == Some(Kanban) && Truthy(data.sprintName) then Raised(KanbanHasNoSprint)
    else if data.boardType == Some(Scrum) && !Truthy(data.sprintName) then Raised(ScrumNeedsSprint)
    else Returned(data)
  }

  /** An accepted payload names a sprint exactly when its board is a scrum
      board (when the board type is given). */
  lemma AcceptedProjectSprint(data: ProjectData)
    requires ValidateProject(data).Returned? && data.boardType.Some?
    ensures Truthy(data.sprintName) <==> data.boardType.value == Scrum
  {
  }
}
