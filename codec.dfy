/**
 * The persistence boundary of task_manager.py: `Task.to_dict` / `Task.from_dict`, the
 * document `save_tasks` writes and the outcome of `load_tasks` reading it back. JSON
 * text is not modelled: a file is either missing, not valid UTF-8, not valid JSON, or
 * the JSON value it parses to.
 */
module TaskCodec {
  import opened Wrappers
  import opened Tasks

  /** A parsed JSON value. Numbers are kept only as integers. */
  datatype Json =
    | JNull
    | JBool(b: bool)
    | JNumber(n: int)
    | JString(s: string)
    | JArray(items: seq<Json>)
    | JObject(fields: map<string, Json>)

  /** Python truthiness of the value `json.load` returns for `j`. */
  predicate Truthy(j: Json) {
    match j
    case JNull => false
    case JBool(b) => b
    case JNumber(n) => n != 0
    case JString(s) => s != ""
    case JArray(xs) => xs != []
    case JObject(m) => m != map[]
  }

  /** The keys `from_dict` reads, in the order it reads them. */
  const RecordKeys: seq<string> :=
    ["title", "description", "due_date", "task_id", "completed", "created_at", "updated_at"]

  /** `Task.to_dict`. */
  function ToDict(d: TaskData): (m: map<string, Json>)
    ensures m.Keys == set k | k in RecordKeys
  {
    map["task_id" := JString(d.taskId), "title" := JString(d.title),
        "description" := JString(d.description), "due_date" := JString(d.dueDate),
        "completed" := JBool(d.completed), "created_at" := JString(d.createdAt),
        "updated_at" := JString(d.updatedAt)]
  }

  /** The first of `keys` that `m` lacks: the key `from_dict` raises `KeyError` for. */
  function FirstMissing(m: map<string, Json>, keys: seq<string>): (r: Option<string>)
    ensures r.None? <==> forall k :: k in keys ==> k in m
    ensures r.Some? ==> (exists i :: 0 <= i < |keys| && keys[i] == r.value && r.value !in m
                                    && forall j :: 0 <= j < i ==> keys[j] in m)
  {
    if keys == [] then None
    else if keys[0] !in m then Some(keys[0])
    else
      var r := FirstMissing(m, keys[1..]);
      if r.Some? then
        var i :| 0 <= i < |keys| - 1 && keys[1..][i] == r.value && r.value !in m
          && forall j :: 0 <= j < i ==> keys[1..][j] in m;
        assert keys[i + 1] == r.value;
        r
      else r
  }

  /** Why one record cannot become a model task. */
  datatype RecordError =
    | MissingKey(key: string)   // `from_dict` raises `KeyError`
    | WrongType(key: string)    // a value the typed model cannot hold (see README)

  /** The argument `from_dict` hands to the constructor's `task_id`, when it is one. */
  function IdArgument(j: Json): Option<string> {
    if j.JString? then Some(j.s) else None
  }

  /**
   * The value under `k` has the type the task field for `k` holds: a boolean for
   * `completed`, a string for the others, and for `task_id` a string or a falsy value.
   */
  predicate FieldTyped(m: map<string, Json>, k: string)
    requires k in m
  {
    if k == "completed" then m[k].JBool?
    else if k == "task_id" then !Truthy(m[k]) || m[k].JString?
    else m[k].JString?
  }

  /** A record with every key `from_dict` reads, each holding a value of its field's type. */
  predicate WellTyped(m: map<string, Json>) {
    && "title" in m && FieldTyped(m, "title")
    && "description" in m && FieldTyped(m, "description")
    && "due_date" in m && FieldTyped(m, "due_date")
    && "task_id" in m && FieldTyped(m, "task_id")
    && "completed" in m && FieldTyped(m, "completed")
    && "created_at" in m && FieldTyped(m, "created_at")
    && "updated_at" in m && FieldTyped(m, "updated_at")
  }

  /**
   * `Task.from_dict(m)`. Any absent key raises `KeyError` (the first one in reading
   * order is reported). A falsy `task_id` (null, "", 0, false, [], {}) makes the
   * constructor generate a new id, which the clock-derived `generatedId` stands for.
   */
  function FromDict(m: map<string, Json>, generatedId: string): (r: Result<TaskData, RecordError>)
    ensures r.Failure? && r.error.MissingKey? ==> r.error.key in RecordKeys && r.error.key !in m
    ensures (exists k :: k in RecordKeys && k !in m) <==> r.Failure? && r.error.MissingKey?
    ensures r.Ok? <==> WellTyped(m)
    ensures r.Failure? && r.error.WrongType? ==>
              r.error.key in RecordKeys && r.error.key in m && !FieldTyped(m, r.error.key)
    ensures r.Ok? ==> HoldsRecord(m, r.value, generatedId)
  {
    match FirstMissing(m, RecordKeys)
    case Some(k) => Failure(MissingKey(k))
    case None => TypedFields(m, generatedId)
  }

  /**
   * `d` holds the values of the record `m`: the six fields as stored, and the stored
   * `task_id` when it is truthy, `generatedId` otherwise.
   */
  predicate HoldsRecord(m: map<string, Json>, d: TaskData, generatedId: string) {
    && "title" in m && m["title"] == JString(d.title)
    && "description" in m && m["description"] == JString(d.description)
    && "due_date" in m && m["due_date"] == JString(d.dueDate)
    && "completed" in m && m["completed"] == JBool(d.completed)
    && "created_at" in m && m["created_at"] == JString(d.createdAt)
    && "updated_at" in m && m["updated_at"] == JString(d.updatedAt)
    && "task_id" in m
    && (if Truthy(m["task_id"]) then m["task_id"] == JString(d.taskId) else d.taskId == generatedId)
  }

  /**
   * The type checks that follow once every key is present (see `UntypedField` for what
   * Python does instead). The title, description and due date are checked first, then
   * a truthy `task_id`, then the completion flag and the two timestamps.
   */
  function TypedFields(m: map<string, Json>, generatedId: string): (r: Result<TaskData, RecordError>)
    requires forall k :: k in RecordKeys ==> k in m
    ensures r.Failure? ==> r.error.WrongType? && r.error.key in RecordKeys && !FieldTyped(m, r.error.key)
    ensures r.Ok? <==> WellTyped(m)
    ensures r.Ok? ==> HoldsRecord(m, r.value, generatedId)
  {
    RecordKeysPresent(m);
    if !m["title"].JString? then Failure(WrongType("title"))
    else if !m["description"].JString? then Failure(WrongType("description"))
    else if !m["due_date"].JString? then Failure(WrongType("due_date"))
    else if Truthy(m["task_id"]) && !m["task_id"].JString? then Failure(WrongType("task_id"))
    else if !m["completed"].JBool? then Failure(WrongType("completed"))
    else if !m["created_at"].JString? then Failure(WrongType("created_at"))
    else if !m["updated_at"].JString? then Failure(WrongType("updated_at"))
    else
      Ok(TaskData(ChooseId(IdArgument(m["task_id"]), generatedId), m["title"].s,
                  m["description"].s, m["due_date"].s, m["completed"].b,
                  m["created_at"].s, m["updated_at"].s))
  }

  /** A map that has every key of `RecordKeys` has each of the seven by name. */
  lemma RecordKeysPresent(m: map<string, Json>)
    requires forall k :: k in RecordKeys ==> k in m
    ensures "title" in m && "description" in m && "due_date" in m && "task_id" in m
    ensures "completed" in m && "created_at" in m && "updated_at" in m
  {
    assert RecordKeys[0] in m && RecordKeys[1] in m && RecordKeys[2] in m && RecordKeys[3] in m;
    assert RecordKeys[4] in m && RecordKeys[5] in m && RecordKeys[6] in m;
  }

  /**
   * `from_dict(to_dict(t))` reproduces all seven fields, except that an empty id is
   * replaced by a generated one.
   */
  lemma FromDictToDict(d: TaskData, generatedId: string)
    ensures FromDict(ToDict(d), generatedId) == Ok(d.(taskId := ChooseId(Some(d.taskId), generatedId)))
  {
    var m := ToDict(d);
    assert forall k :: k in RecordKeys ==> k in m;
    assert WellTyped(m);
    var r := TypedFields(m, generatedId);
    assert HoldsRecord(m, r.value, generatedId);
  }

  /** The contents of the data file as `load_tasks` finds them. */
  datatype FileText =
    | Undecodable        // not UTF-8: reading raises `UnicodeDecodeError`
    | Unparsable         // not JSON (an empty file included): `json.JSONDecodeError`
    | Document(root: Json)

  datatype DataFile = Missing | Present(text: FileText)

  /**
   * Exceptions `load_tasks` catches, after which it sets `self.tasks = []`. Its third,
   * `FileNotFoundError`, needs the file to vanish after the existence test and is not
   * modelled.
   */
  datatype CaughtError = JSONDecodeError | KeyError(key: string)

  /** Exceptions `load_tasks` lets through, leaving `self.tasks` as it was. */
  datatype UncaughtError = UnicodeDecodeError | AttributeError | TypeError | UntypedField(key: string)

  /** How one call of `load_tasks` ends. */
  datatype LoadResult =
    | NoFile                        // the file does not exist: return early
    | Loaded(tasks: seq<TaskData>)  // `self.tasks` replaced by the decoded list
    | Reset(cause: CaughtError)     // caught: `self.tasks = []`
    | Raised(error: UncaughtError)  // propagates to the caller

  /** The document `save_tasks` writes: `{'tasks': [...], 'last_updated': now}`. */
  function SaveDocument(ds: seq<TaskData>, now: string): Json {
    JObject(map["tasks" := JArray(Records(ds)), "last_updated" := JString(now)])
  }

  /** The `tasks` list of the saved document: `[task.to_dict() for task in self.tasks]`. */
  function Records(ds: seq<TaskData>): (r: seq<Json>)
    ensures |r| == |ds| && forall i :: 0 <= i < |ds| ==> r[i] == JObject(ToDict(ds[i]))
  {
    seq(|ds|, i requires 0 <= i < |ds| => JObject(ToDict(ds[i])))
  }

  /** `Task.from_dict(item)` for one element of the `tasks` list. */
  function DecodeRecord(item: Json, generatedId: string): (r: Result<TaskData, LoadResult>)
    ensures r.Failure? ==> r.error.Reset? || r.error.Raised?
    ensures r.Failure? && r.error.Reset? ==>
              r.error.cause.KeyError? && item.JObject? && r.error.cause.key !in item.fields
    ensures r.Failure? && r.error.Raised? ==> r.error.error.TypeError? || r.error.error.UntypedField?
  {
    match item
    case JObject(m) =>
      (match FromDict(m, generatedId)
       case Ok(d) => Ok(d)
       case Failure(MissingKey(k)) => Failure(Reset(KeyError(k)))
       case Failure(WrongType(k)) => Failure(Raised(UntypedField(k))))
    case _ => Failure(Raised(TypeError))  // a non-mapping cannot be indexed by a key
  }

  /**
   * The list comprehension of `load_tasks` over the records, left to right: all of
   * them decode and the list is the decoded records in order, or the first failure
   * ends the load and no partial list is kept.
   */
  function DecodeRecords(items: seq<Json>, generatedId: string): (r: LoadResult)
    ensures r.Loaded? || r.Reset? || r.Raised?
    ensures r.Reset? ==> r.cause.KeyError?
    ensures r.Raised? ==> r.error.TypeError? || r.error.UntypedField?
    ensures r.Loaded? <==> forall i :: 0 <= i < |items| ==> DecodeRecord(items[i], generatedId).Ok?
    ensures r.Loaded? ==>
              |r.tasks| == |items|
              && forall i :: 0 <= i < |items| ==> r.tasks[i] == DecodeRecord(items[i], generatedId).value
  {
    if items == [] then Loaded([])
    else
      match DecodeRecord(items[0], generatedId)
      case Failure(e) => e
      case Ok(d) =>
        var rest := DecodeRecords(items[1..], generatedId);
        if rest.Loaded? then
          assert forall i :: 1 <= i < |items| ==> items[i] == items[1..][i - 1];
          Loaded([d] + rest.tasks)
        else
          assert forall i :: 0 <= i < |items| - 1 ==> items[1..][i] == items[i + 1];
          rest
  }

  /**
   * `data.get('tasks', [])` iterated: a list yields its records; iterating a dict
   * yields its keys and a string its characters, and `from_dict` of a string raises
   * `TypeError`; other values are not iterable.
   */
  function DecodeTaskList(j: Json, generatedId: string): (r: LoadResult)
    ensures j.JArray? ==> r == DecodeRecords(j.items, generatedId)
    ensures !r.NoFile?
    ensures r.Reset? ==> j.JArray? && r.cause.KeyError?
    ensures !j.JArray? ==> (r.Loaded? <==> j in {JObject(map[]), JString("")})
    ensures !j.JArray? && r.Loaded? ==> r.tasks == []
    ensures !j.JArray? && r.Raised? ==> r.error == TypeError
    ensures r.Raised? ==> r.error.TypeError? || r.error.UntypedField?
  {
    match j
    case JArray(items) => DecodeRecords(items, generatedId)
    case JObject(m) => if m == map[] then Loaded([]) else Raised(TypeError)
    case JString(s) => if s == "" then Loaded([]) else Raised(TypeError)
    case _ => Raised(TypeError)
  }

  /** `load_tasks` as a function of the file it finds. */
  function DecodeFile(f: DataFile, generatedId: string): (r: LoadResult)
    ensures r.NoFile? <==> f.Missing?
    ensures r == Raised(UnicodeDecodeError) <==> f == Present(Undecodable)
    ensures r == Reset(JSONDecodeError) <==> f == Present(Unparsable)
    ensures r == Raised(AttributeError) <==> f.Present? && f.text.Document? && !f.text.root.JObject?
    ensures r.Loaded? ==> f.Present? && f.text.Document? && f.text.root.JObject?
    ensures f.Present? && f.text.Document? && f.text.root.JObject? && "tasks" !in f.text.root.fields ==>
              r == Loaded([])
  {
    match f
    case Missing => NoFile
    case Present(Undecodable) => Raised(UnicodeDecodeError)
    case Present(Unparsable) => Reset(JSONDecodeError)
    case Present(Document(root)) =>
      if !root.JObject? then Raised(AttributeError)  // `data.get` on a list, string, ...
      else DecodeTaskList(if "tasks" in root.fields then root.fields["tasks"] else JArray([]),
                          generatedId)
  }

  /** What `save_tasks` leaves in the data file. */
  function SavedFile(ds: seq<TaskData>, now: string): DataFile {
    Present(Document(SaveDocument(ds, now)))
  }

  /**
   * Loading what was saved gives back the same tasks in the same order, provided no
   * task has an empty id (every id the manager generates is non-empty).
   */
  lemma {:induction false} SaveLoadRoundTrip(ds: seq<TaskData>, now: string, generatedId: string)
    requires forall i :: 0 <= i < |ds| ==> ds[i].taskId != ""
    ensures DecodeFile(SavedFile(ds, now), generatedId) == Loaded(ds)
  {
    var items := Records(ds);
    RecordsRoundTrip(ds, generatedId);
    var root := SaveDocument(ds, now);
    assert root.JObject? && "tasks" in root.fields && root.fields["tasks"] == JArray(items);
    assert DecodeFile(SavedFile(ds, now), generatedId) == DecodeTaskList(JArray(items), generatedId);
  }

  /**
   * Decoding the saved records gives back the tasks in order, provided no task has an
   * empty id.
   */
  lemma RecordsRoundTrip(ds: seq<TaskData>, generatedId: string)
    requires forall i :: 0 <= i < |ds| ==> ds[i].taskId != ""
    ensures DecodeRecords(Records(ds), generatedId) == Loaded(ds)
  {
    var items := Records(ds);
    forall i | 0 <= i < |items|
      ensures DecodeRecord(items[i], generatedId) == Ok(ds[i])
    {
      FromDictToDict(ds[i], generatedId);
    }
    var r := DecodeRecords(items, generatedId);
    assert r.Loaded? && r.tasks == ds;
  }

  /**
   * All or nothing: when records before index `i` decode and record `i` does not,
   * the whole load ends as record `i` does (reset to empty, or an exception).
   */
  lemma {:induction false} DecodeRecordsFirstFailure(items: seq<Json>, generatedId: string, i: nat)
    requires i < |items| && DecodeRecord(items[i], generatedId).Failure?
    requires forall j :: 0 <= j < i ==> DecodeRecord(items[j], generatedId).Ok?
    ensures DecodeRecords(items, generatedId) == DecodeRecord(items[i], generatedId).error
  {
    if i > 0 {
      assert forall j :: 0 <= j < i - 1 ==> items[1..][j] == items[j + 1];
      DecodeRecordsFirstFailure(items[1..], generatedId, i - 1);
    }
  }

  /**
   * A record lacking a required key, after records that all decode, resets the
   * load to an empty list.
   */
  lemma MissingKeyResets(items: seq<Json>, generatedId: string, i: nat, k: string)
    requires i < |items| && items[i].JObject? && k in RecordKeys && k !in items[i].fields
    requires forall j :: 0 <= j < i ==> DecodeRecord(items[j], generatedId).Ok?
    ensures DecodeRecords(items, generatedId).Reset?
  {
    DecodeRecordsFirstFailure(items, generatedId, i);
  }

  /** The start-up cases the code and its tests exercise. */
  lemma LoadExamples(generatedId: string, xs: seq<Json>)
    ensures DecodeFile(Missing, generatedId) == NoFile
    ensures DecodeFile(Present(Unparsable), generatedId) == Reset(JSONDecodeError)
    ensures DecodeFile(Present(Document(JArray(xs))), generatedId) == Raised(AttributeError)
    ensures DecodeFile(Present(Document(JObject(map[]))), generatedId) == Loaded([])
  {
  }
}
