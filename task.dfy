/**
 * The `Task` entity of task_manager.py: a mutable object with seven fields, whose one
 * mutator is `mark_completed`. `TaskData` is the value of those fields at one moment.
 */
module Tasks {
  import opened Wrappers

  /** The seven fields of a task, in the order `to_dict` lists them. */
  datatype TaskData = TaskData(
    taskId: string,
    title: string,
    description: string,
    dueDate: string,
    completed: bool,
    createdAt: string,
    updatedAt: string)

  /**
   * `task_id or self._generate_id()`. The id is never empty while generated ids are
   * not; it is either the generated one or the given one, and the generated one
   * replaces a given id only when that is missing or empty.
   */
  function ChooseId(given: Option<string>, generatedId: string): (id: string)
    ensures generatedId != "" ==> id != ""
    ensures id == generatedId || (given == Some(id) && id != "")
    ensures id != generatedId || given.None? || given.value in {"", generatedId}
  {
    if given.Some? && given.value != "" then given.value else generatedId
  }

  /** The fields of a task after `mark_completed` at clock reading `now`. */
  function MarkedCompleted(d: TaskData, now: string): (r: TaskData)
    ensures r.completed && r.updatedAt == now
    ensures r.(completed := d.completed, updatedAt := d.updatedAt) == d
  {
    d.(completed := true, updatedAt := now)
  }

  /** Completing twice is completing once, at the later clock reading. */
  lemma MarkedCompletedIdempotent(d: TaskData, now1: string, now2: string)
    ensures MarkedCompleted(MarkedCompleted(d, now1), now2) == MarkedCompleted(d, now2)
  {
  }

  class Task {
    var taskId: string
    var title: string
    var description: string
    var dueDate: string
    var completed: bool
    var createdAt: string
    var updatedAt: string

    /** The current values of the fields. */
    function Value(): TaskData
      reads this
    {
      TaskData(taskId, title, description, dueDate, completed, createdAt, updatedAt)
    }

    /**
     * `Task.__init__`: the given title, description and due date verbatim, the given id
     * or else the clock-derived `generatedId`, not completed, both timestamps read from
     * the clock (`createdAt` and `updatedAt` are two separate `datetime.now()` calls).
     */
    constructor (title: string, description: string, dueDate: string, taskId: Option<string>,
                 generatedId: string, createdAt: string, updatedAt: string)
      ensures Value() == TaskData(ChooseId(taskId, generatedId), title, description, dueDate,
                                  false, createdAt, updatedAt)
    {
      this.taskId := ChooseId(taskId, generatedId);
      this.title := title;
      this.description := description;
      this.dueDate := dueDate;
      this.completed := false;
      this.createdAt := createdAt;
      this.updatedAt := updatedAt;
    }

    /**
     * The object `Task.from_dict` builds from a decoded record: its constructor call
     * followed by the assignments of `completed`, `created_at` and `updated_at`.
     */
    constructor FromData(d: TaskData)
      ensures Value() == d
    {
      taskId, title, description, dueDate := d.taskId, d.title, d.description, d.dueDate;
      completed, createdAt, updatedAt := d.completed, d.createdAt, d.updatedAt;
    }

    /** `mark_completed`: sets `completed` and refreshes `updated_at`; nothing else changes. */
    method MarkCompleted(now: string)
      modifies this
      ensures Value() == MarkedCompleted(old(Value()), now)
    {
      completed := true;
      updatedAt := now;
    }
  }

  /** The field values of a list of task objects, element by element. */
  function Values(ts: seq<Task>): (r: seq<TaskData>)
    reads ts
    ensures |r| == |ts| && forall k :: 0 <= k < |ts| ==> r[k] == ts[k].Value()
  {
    seq(|ts|, k requires 0 <= k < |ts| reads ts => ts[k].Value())
  }
}
