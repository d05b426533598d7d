/**
 * `TaskManager` of task_manager.py: an ordered list of task objects and the data file
 * it is saved to. The clock readings each operation takes (for ids, timestamps and the
 * `last_updated` entry of the saved document) are parameters.
 */
module TaskManagement {
  import opened Wrappers
  import opened PyText
  import opened DueDates
  import opened TaskIds
  import opened Tasks
  import opened TaskCodec
  import opened TaskQueries

  /**
   * `_validate_task_data`: the title is neither empty nor whitespace only (it is not
   * trimmed otherwise) and `strptime(due_date, '%Y-%m-%d')` succeeds.
   */
  function ValidateTaskData(title: string, dueDate: string): (ok: bool)
    ensures ok <==> (exists i :: 0 <= i < |title| && !IsSpace(title[i])) && IsValidDueDate(dueDate)
  {
    StripEmptyIffBlank(title);
    if title == "" || Strip(title) == "" then false
    else IsValidDueDate(dueDate)
  }

  class TaskManager {
    /** `self.tasks`, in insertion order. */
    var tasks: seq<Task>
    /** What the data file at `self.data_file` holds. */
    var file: DataFile

    /**
     * The list never holds one object twice (every object in it was created by
     * `add_task` or `load_tasks`), and no task has an empty id.
     */
    ghost predicate Valid()
      reads this, tasks
    {
      && (forall i, j :: 0 <= i < j < |tasks| ==> tasks[i] != tasks[j])
      && (forall i :: 0 <= i < |tasks| ==> tasks[i].taskId != "")
    }

    /** The field values of the tasks, in list order. */
    function Contents(): seq<TaskData>
      reads this, tasks
    {
      Values(tasks)
    }

    /** `TaskManager.__init__` up to its `load_tasks()` call. */
    constructor (file: DataFile)
      ensures Valid() && tasks == [] && this.file == file
    {
      tasks := [];
      this.file := file;
    }

    /** `save_tasks`: the whole file is replaced by the current list and `last_updated = now`. */
    method SaveTasks(now: string)
      modifies this`file
      ensures file == SavedFile(Contents(), now)
    {
      file := SavedFile(Contents(), now);
    }

    /**
     * `add_task`. Invalid data raises `ValueError` (`None` here) and changes nothing.
     * Otherwise one new task carrying the arguments verbatim and not completed is
     * appended, the tasks before it are untouched, and the list is saved.
     */
    method AddTask(title: string, description: string, dueDate: string,
                   clock: Stamp, createdAt: string, updatedAt: string, savedAt: string)
      returns (r: Option<Task>)
      requires Valid()
      modifies this
      ensures Valid()
      ensures r.Some? <==> ValidateTaskData(title, dueDate)
      ensures r.None? ==> tasks == old(tasks) && Contents() == old(Contents()) && file == old(file)
      ensures r.Some? ==> fresh(r.value) && tasks == old(tasks) + [r.value]
      ensures r.Some? ==>
                Contents() == old(Contents())
                              + [TaskData(GenerateId(clock), title, description, dueDate,
                                          false, createdAt, updatedAt)]
      ensures r.Some? ==> file == SavedFile(Contents(), savedAt)
    {
      if !ValidateTaskData(title, dueDate) {
        return None;
      }
      GenerateIdShape(clock);
      var t := new Task(title, description, dueDate, None, GenerateId(clock), createdAt, updatedAt);
      Append(t, savedAt);
      r := Some(t);
    }

    /** `self.tasks.append(task)` followed by `save_tasks()`, for a task not yet in the list. */
    method Append(t: Task, savedAt: string)
      requires Valid() && t !in tasks && t.taskId != ""
      modifies this
      ensures Valid() && tasks == old(tasks) + [t]
      ensures Contents() == old(Contents()) + [t.Value()]
      ensures file == SavedFile(Contents(), savedAt)
    {
      tasks := tasks + [t];
      assert forall k :: 0 <= k < |old(tasks)| ==> tasks[k] == old(tasks)[k];
      SaveTasks(savedAt);
    }

    /** `get_all_tasks`: the list itself. */
    method GetAllTasks() returns (r: seq<Task>)
      ensures r == tasks && Values(r) == Contents()
    {
      r := tasks;
    }

    /** `get_pending_tasks`: the tasks not completed, in list order. */
    method GetPendingTasks() returns (r: seq<Task>)
      ensures r == Keep(tasks, Contents(), PendingOnly)
    {
      r := Keep(tasks, Contents(), PendingOnly);
    }

    /** `get_completed_tasks`: the completed tasks, in list order. */
    method GetCompletedTasks() returns (r: seq<Task>)
      ensures r == Keep(tasks, Contents(), CompletedOnly)
    {
      r := Keep(tasks, Contents(), CompletedOnly);
    }

    /** `get_task_by_id`: the first task in list order with that id, or `None`. */
    method GetTaskById(id: string) returns (r: Option<Task>)
      ensures r.None? <==> FindFirst(Contents(), id).None?
      ensures r.Some? ==> r.value == tasks[FindFirst(Contents(), id).value]
    {
      var i := 0;
      while i < |tasks|
        invariant 0 <= i <= |tasks|
        invariant forall j :: 0 <= j < i ==> Contents()[j].taskId != id
      {
        if tasks[i].taskId == id {
          return Some(tasks[i]);
        }
        i := i + 1;
      }
      return None;
    }

    /**
     * `mark_task_completed`: `False` and no change when no task has the id; otherwise
     * the first task with it is completed at `now`, no other task changes, and the
     * list is saved.
     */
    method MarkTaskCompleted(id: string, now: string, savedAt: string) returns (found: bool)
      requires Valid()
      modifies this, tasks
      ensures Valid() && tasks == old(tasks)
      ensures found <==> FindFirst(old(Contents()), id).Some?
      ensures Contents() == CompleteFirst(old(Contents()), id, now)
      ensures file == if found then SavedFile(Contents(), savedAt) else old(file)
    {
      var t := GetTaskById(id);
      if t.None? {
        return false;
      }
      CompleteObject(t.value, FindFirst(Contents(), id).value, now);
      SaveTasks(savedAt);
      return true;
    }

    /** `task.mark_completed()` on the object `t` of the list, found at `i`. */
    method CompleteObject(t: Task, ghost i: nat, now: string)
      requires Valid() && i < |tasks| && tasks[i] == t
      modifies t
      ensures Valid() && tasks == old(tasks)
      ensures Contents() == old(Contents())[i := MarkedCompleted(old(Contents())[i], now)]
    {
      t.MarkCompleted(now);
      assert forall j :: 0 <= j < |tasks| && j != i ==> tasks[j] != t;
    }

    /**
     * `delete_task`: `False` and no change when no task has the id; otherwise the first
     * task with it is removed by `list.remove` (which finds that same object), the rest
     * keep their order, and the list is saved.
     */
    method DeleteTask(id: string, savedAt: string) returns (found: bool)
      requires Valid()
      modifies this
      ensures Valid()
      ensures found <==> FindFirst(old(Contents()), id).Some?
      ensures found ==> tasks == RemoveAt(old(tasks), FindFirst(old(Contents()), id).value)
      ensures !found ==> tasks == old(tasks)
      ensures Contents() == RemoveFirst(old(Contents()), id)
      ensures file == if found then SavedFile(Contents(), savedAt) else old(file)
    {
      var t := GetTaskById(id);
      if t.None? {
        return false;
      }
      RemoveObject(t.value, FindFirst(Contents(), id).value);
      SaveTasks(savedAt);
      return true;
    }

    /** `self.tasks.remove(t)`: drops the first element that is the object `t`, found at `i`. */
    method RemoveObject(t: Task, ghost i: nat)
      requires Valid() && i < |tasks| && tasks[i] == t
      modifies this`tasks
      ensures Valid()
      ensures tasks == RemoveAt(old(tasks), i) && Contents() == RemoveAt(old(Contents()), i)
    {
      var k := 0;
      while tasks[k] != t
        invariant 0 <= k <= i
        decreases i - k
      {
        k := k + 1;
      }
      tasks := tasks[..k] + tasks[k + 1..];
      assert forall j :: 0 <= j < |tasks| ==> tasks[j] == old(tasks)[if j < k then j else j + 1];
    }

    /**
     * `search_tasks`: the tasks, in list order, whose title or description contains the
     * keyword ignoring case (when a keyword is given) and whose due date equals the
     * given one (when one is given).
     */
    method SearchTasks(keyword: Option<string>, dueDate: Option<string>) returns (results: seq<Task>)
      ensures results == Keep(tasks, Contents(), Search(keyword, dueDate))
    {
      var ts := tasks;
      ghost var cs := Contents();
      ghost var c := Search(keyword, dueDate);
      results := [];
      var i := 0;
      while i < |ts|
        invariant 0 <= i <= |ts|
        invariant results == Keep(ts[..i], cs[..i], c)
      {
        var matched := SearchMatches(ts[i], keyword, dueDate);
        KeepPrefixStep(ts, cs, c, i);
        if matched {
          results := results + [ts[i]];
        }
        i := i + 1;
      }
      assert ts[..i] == ts && cs[..i] == cs;
    }

    /** One pass of `search_tasks`'s loop: whether `task` meets both filters. */
    static method SearchMatches(task: Task, keyword: Option<string>, dueDate: Option<string>)
      returns (matched: bool)
      ensures matched == Accepts(Search(keyword, dueDate), task.Value())
    {
      matched := true;
      if keyword.Some? && keyword.value != "" {
        var keywordLower := Lower(keyword.value);
        if !Contains(Lower(task.title), keywordLower) && !Contains(Lower(task.description), keywordLower) {
          matched := false;
        }
      }
      if dueDate.Some? && dueDate.value != "" && task.dueDate != dueDate.value {
        matched := false;
      }
    }

    /**
     * `load_tasks`: the outcome is a function of the file alone. A decoded list replaces
     * the tasks with new objects holding the decoded values in order; a caught error
     * empties the list; a missing file or an exception that propagates leaves it as it
     * was. `clock` stands for the reading a record with a falsy id is given.
     */
    method LoadTasks(clock: Stamp) returns (r: LoadResult)
      requires Valid()
      modifies this
      ensures Valid() && file == old(file)
      ensures r == DecodeFile(file, GenerateId(clock))
      ensures r.Loaded? ==> Contents() == r.tasks && forall k :: 0 <= k < |tasks| ==> fresh(tasks[k])
      ensures r.Reset? ==> tasks == []
      ensures r.NoFile? || r.Raised? ==> tasks == old(tasks)
    {
      GenerateIdShape(clock);
      r := DecodeFile(file, GenerateId(clock));
      if r.Loaded? {
        LoadedIdsNonEmpty(file, GenerateId(clock));
        tasks := NewTasks(r.tasks);
      } else if r.Reset? {
        tasks := [];
      }
    }
  }

  /** `[Task.from_dict(d) for d in ...]` once every record has decoded: one new object per value, in order. */
  method NewTasks(ds: seq<TaskData>) returns (loaded: seq<Task>)
    ensures Values(loaded) == ds
    ensures forall k :: 0 <= k < |loaded| ==> fresh(loaded[k])
    ensures forall a, b :: 0 <= a < b < |loaded| ==> loaded[a] != loaded[b]
  {
    loaded := [];
    var i := 0;
    while i < |ds|
      invariant 0 <= i <= |ds| && |loaded| == i
      invariant forall k :: 0 <= k < i ==> fresh(loaded[k])
      invariant forall a, b :: 0 <= a < b < i ==> loaded[a] != loaded[b]
      invariant Values(loaded) == ds[..i]
    {
      var t := new Task.FromData(ds[i]);
      loaded := loaded + [t];
      assert Values(loaded) == ds[..i + 1];
      i := i + 1;
    }
  }

  /** Records decoded with a non-empty generated id all have non-empty ids. */
  lemma LoadedIdsNonEmpty(f: DataFile, generatedId: string)
    requires generatedId != "" && DecodeFile(f, generatedId).Loaded?
    ensures forall i :: 0 <= i < |DecodeFile(f, generatedId).tasks| ==> DecodeFile(f, generatedId).tasks[i].taskId != ""
  {
    var ts := DecodeFile(f, generatedId).tasks;
    if f.Present? && f.text.Document? && f.text.root.JObject? {
      var root := f.text.root;
      var list := if "tasks" in root.fields then root.fields["tasks"] else JArray([]);
      if list.JArray? {
        forall i | 0 <= i < |ts| ensures ts[i].taskId != "" {
          var item := list.items[i];
          assert DecodeRecord(item, generatedId).Ok?;
        }
      }
    }
  }

  /** `TaskManager(data_file)`: construct, then `load_tasks()`; a `Raised` outcome means `__init__` raised. */
  method Open(file: DataFile, clock: Stamp) returns (m: TaskManager, r: LoadResult)
    ensures fresh(m) && m.Valid() && m.file == file
    ensures r == DecodeFile(file, GenerateId(clock))
    ensures r.Loaded? ==> m.Contents() == r.tasks
    ensures !r.Loaded? ==> m.tasks == []
  {
    m := new TaskManager(file);
    r := m.LoadTasks(clock);
  }

  /** The first half of the save-and-load test: two valid tasks added to an empty manager. */
  method AddTwoTasks(m: TaskManager,
                     title1: string, description1: string, dueDate1: string, clock1: Stamp,
                     title2: string, description2: string, dueDate2: string, clock2: Stamp,
                     now: string)
    requires m.Valid() && m.tasks == []
    requires ValidateTaskData(title1, dueDate1) && ValidateTaskData(title2, dueDate2)
    modifies m
    ensures m.Valid()
    ensures m.Contents() == [TaskData(GenerateId(clock1), title1, description1, dueDate1, false, now, now),
                             TaskData(GenerateId(clock2), title2, description2, dueDate2, false, now, now)]
    ensures m.file == SavedFile(m.Contents(), now)
  {
    ghost var d1 := TaskData(GenerateId(clock1), title1, description1, dueDate1, false, now, now);
    ghost var d2 := TaskData(GenerateId(clock2), title2, description2, dueDate2, false, now, now);
    assert m.Contents() == [];
    var a := m.AddTask(title1, description1, dueDate1, clock1, now, now, now);
    assert a.Some?;
    assert m.Contents() == [d1];
    var b := m.AddTask(title2, description2, dueDate2, clock2, now, now, now);
    assert b.Some?;
    assert m.Contents() == [d1] + [d2];
  }

  /**
   * Opening a second manager on the file a manager saved gives new task objects with
   * the same values in the same order.
   */
  method Reopen(m: TaskManager, ghost savedAt: string, clock: Stamp) returns (second: TaskManager)
    requires m.Valid() && m.file == SavedFile(m.Contents(), savedAt)
    ensures fresh(second) && second.Valid() && second.file == m.file
    ensures second.Contents() == old(m.Contents()) == m.Contents()
  {
    ghost var ds := m.Contents();
    assert forall i :: 0 <= i < |ds| ==> ds[i].taskId == m.tasks[i].taskId;
    SaveLoadRoundTrip(ds, savedAt, GenerateId(clock));
    var r;
    second, r := Open(m.file, clock);
  }

  /**
   * The save-and-load test, for any two tasks that pass validation: tasks added through
   * one manager are found, unchanged and in order, by a second manager opened on the
   * file the first one wrote.
   */
  method SaveAndLoadScenario(title1: string, description1: string, dueDate1: string, clock1: Stamp,
                             title2: string, description2: string, dueDate2: string, clock2: Stamp,
                             clock3: Stamp, now: string)
    returns (loaded: seq<TaskData>)
    requires ValidateTaskData(title1, dueDate1) && ValidateTaskData(title2, dueDate2)
    ensures loaded == [TaskData(GenerateId(clock1), title1, description1, dueDate1, false, now, now),
                       TaskData(GenerateId(clock2), title2, description2, dueDate2, false, now, now)]
  {
    // the test's temporary file starts out empty, which `json.load` rejects
    var first, initial := Open(Present(Unparsable), clock1);
    AddTwoTasks(first, title1, description1, dueDate1, clock1, title2, description2, dueDate2, clock2, now);
    var second := Reopen(first, now, clock3);
    loaded := second.Contents();
  }
}
