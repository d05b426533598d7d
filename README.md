# Task manager core, modelled in Dafny

This project models `task_manager.py`, the core of a small personal task tracker.

- A `Task` is a mutable object with seven fields: id, title, description, due date, completion flag and two timestamps.
- A `TaskManager` owns an ordered list of such objects and a JSON data file. It adds validated tasks, looks tasks up by id (first match), completes and deletes them, filters and searches the list, and saves the whole list after every change.
- A manager loads the file when it is created. The load gives all or nothing: either every record decodes, or the list falls back to empty, or the exception propagates.

The model keeps the source's own form:

- `Task` and `TaskManager` are classes whose methods update their fields in place.
- The loops of `get_task_by_id`, `search_tasks` and `list.remove` are `while` loops with invariants.
- Every state change is tied to a pure function of the old state: `CompleteFirst`, `RemoveFirst`, `Keep`, `DecodeFile`, `SavedFile`. The properties of those functions are proved as lemmas.

Files, one module each:

| file | module | what it holds |
|---|---|---|
| `wrappers.dfy` | `Wrappers` | `Option`, `Result` |
| `text.dfy` | `PyText` | `str.strip`, `str.lower` (ASCII letters), `in` on strings |
| `numerals.dfy` | `Numerals` | zero-padded decimal numerals and their values |
| `dates.dfy` | `DueDates` | `datetime.strptime(s, '%Y-%m-%d')` as a predicate on strings |
| `ids.dfy` | `TaskIds` | `Task._generate_id` on a clock reading |
| `task.dfy` | `Tasks` | `TaskData` (the seven field values) and the `Task` class |
| `codec.dfy` | `TaskCodec` | `to_dict`, `from_dict`, the saved document and `load_tasks` as a function of the file |
| `queries.dfy` | `TaskQueries` | filters, search, first match, completion and deletion on values |
| `manager.dfy` | `TaskManagement` | the `TaskManager` class, opening a manager, and the save-and-load test |

The clock is an input throughout:

- `datetime.now()` for timestamps is a string parameter (`now`, `createdAt`, `updatedAt`, `savedAt`).
- The reading behind `_generate_id` is a `Stamp` parameter.
- The data file is a `DataFile` field:
  - `Missing`;
  - or `Present` with text that is not UTF-8, text that is not JSON, or a parsed JSON value.
- `save_tasks` replaces that field with `SavedFile(values, now)`.
- `load_tasks` reads the field.

## Notes on what the code does

- **Ids.** They are `TASK_` followed by the creation time to the second (`task_manager.py:39`). Two tasks created in the same second get the same id (`GenerateIdInjective`). The model therefore states first-match behaviour and never assumes unique ids.
- **Title not trimmed.** The title is stored as given. Only the validation strips it (`task_manager.py:239`).
- **Shape of the data file.** The top level must be a JSON object (`task_manager.py:271`).
  - A top level that is a list, string, number, boolean or null raises `AttributeError`, which `load_tasks` does not catch.
  - An object without a `tasks` key loads as an empty list, because `data.get('tasks', [])` defaults.
  - The `tasks` value is iterated. A list gives its records. An empty object or an empty string gives no records, so the load succeeds with an empty list.
- **Record keys.**
  - The key is `task_id` only; `id` is not read.
  - `updated_at` is required: a record without it resets the list to empty.
- **Errors that escape.** Some load errors propagate instead of giving an empty list:
  - `UnicodeDecodeError` and `AttributeError`;
  - `TypeError`, for a record that is not a mapping. A non-empty object or string as the `tasks` value also raises it: iterating it gives keys or characters, which are strings. A number, boolean or null there is not iterable and raises it as well.

## Model

| member | source | states |
|---|---|---|
| Tasks.ChooseId | task_manager.py:27 | the id is non-empty whenever generated ids are; it is the generated id or the given non-empty one, and the generated id wins only over a missing or empty given id |
| Tasks.Task.constructor | task_manager.py:17-33 | the new task holds the given title, description and due date verbatim, the chosen id, `completed` false and the two clock readings |
| Tasks.MarkedCompleted | task_manager.py:41-46 | completion sets the flag and `updated_at` and leaves the other five fields as they were |
| Tasks.Task.MarkCompleted | task_manager.py:41-46 | the object's new fields are `MarkedCompleted` of its old fields |
| Tasks.MarkedCompletedIdempotent | task_manager.py:41-46 | completing twice equals completing once at the later clock reading |
| Tasks.Task.FromData | task_manager.py:67-76 | the object built from a decoded record holds exactly that record's values |
| TaskIds.GenerateIdShape | task_manager.py:39 | a generated id is 20 characters, starts with `TASK_`, has `_` at index 13 and is never empty |
| TaskIds.GenerateIdFields | task_manager.py:39 | year, month, day, hour, minute and second sit zero-padded at fixed positions of the id |
| TaskIds.GenerateIdInjective | task_manager.py:39 | two valid clock readings give the same id if and only if they are the same second |
| Numerals.PadRoundTrip | task_manager.py:39 | a number below 10^w is read back from its w-digit zero-padded numeral |
| Numerals.PadInjective | task_manager.py:39 | two numbers below 10^w have the same w-digit numeral if and only if they are equal |
| DueDates.ParseDate | task_manager.py:243 | a parse gives a year below 10000, a month 1..12 and a day 1..31; the two round-trip lemmas below fix which date a canonical string denotes |
| DueDates.DaysInMonth | task_manager.py:243 | a month has 28 to 31 days, and 29 exactly for February of a Gregorian leap year |
| DueDates.FormatParseRoundTrip | task_manager.py:243 | any year below 10000, month 1..12 and day 1..31 written as `YYYY-MM-DD` parses back to itself, and that string is accepted if and only if it names a calendar date |
| DueDates.ParseFormatRoundTrip | task_manager.py:243 | a ten-character string that parses, with no space before the day, is the `YYYY-MM-DD` spelling of the date it parses to |
| Numerals.PadNumeralValue | task_manager.py:243 | an all-digit string is the zero-padded numeral of the number it denotes |
| DueDates.AcceptedDueDates | test_task_manager.py:85-156 | the due dates the tests use are accepted |
| DueDates.LeapDayDueDates | task_manager.py:243 | 29 February is accepted in 2024 and refused in 2023 |
| DueDates.ShortFieldDueDates | task_manager.py:243 | a one-digit month or day, and a space-padded day, are accepted, and `2024-1-5` and `2024-01- 5` both parse to 5 January 2024 |
| DueDates.RejectedDueDates | test_task_manager.py:96-97 | `invalid-date`, month 13, 31 April, trailing text and a two-digit year are refused |
| DueDates.YearZeroDueDate | task_manager.py:243 | year 0000 is refused |
| PyText.LStrip | task_manager.py:239 | the result is a suffix of the input, only whitespace was dropped, and it does not start with whitespace |
| PyText.RStrip | task_manager.py:239 | the result is a prefix of the input, only whitespace was dropped, and it does not end with whitespace |
| PyText.StripEmptyIffBlank | task_manager.py:239 | `strip()` is empty if and only if every character is whitespace |
| PyText.Lower | task_manager.py:215-217 | same length; each upper-case ASCII letter becomes its own lower-case letter and every other character is kept |
| PyText.SameIgnoringCaseLower | task_manager.py:215-217 | two strings that differ only in the case of ASCII letters have the same lower case |
| PyText.LowerIdempotent | task_manager.py:215-217 | lower-casing twice equals lower-casing once |
| PyText.MissingFirstChar | task_manager.py:216-217 | a text without the keyword's first character does not contain the keyword |
| TaskManagement.ValidateTaskData | task_manager.py:228-246 | valid if and only if the title has a non-whitespace character and the due date is a real calendar date in `%Y-%m-%d` |
| TaskCodec.ToDict | task_manager.py:48-60 | the dictionary has exactly the seven record keys |
| TaskCodec.FirstMissing | task_manager.py:67-75 | none if and only if all keys are present; otherwise the earliest absent key in reading order |
| TaskCodec.FromDict | task_manager.py:62-76 | a missing key fails if and only if some key is absent, and names an absent key; decoding succeeds if and only if every key is present with a value of its type; a reported type error names a key whose value has the wrong type; on success the fields equal the dictionary's values, and a falsy `task_id` gives the generated id |
| TaskCodec.TypedFields | task_manager.py:67-75 | with all keys present, decoding succeeds if and only if every value has its field's type; a failure names a wrongly typed key; on success the values are taken over |
| TaskCodec.FromDictToDict | task_manager.py:48-76 | `from_dict(to_dict(t))` gives back all seven fields; an empty id becomes the generated one |
| TaskCodec.DecodeRecord | task_manager.py:271-273 | a failed record either resets (only for a key that is missing) or raises |
| TaskCodec.DecodeRecords | task_manager.py:271 | the load succeeds if and only if every record decodes, and then gives the decoded records in order; a reset is a `KeyError`, and a propagating error is a `TypeError` or a wrongly typed field |
| TaskCodec.DecodeTaskList | task_manager.py:271 | a list is decoded by `DecodeRecords`, record by record; any other value loads if and only if it is an empty object or an empty string, and then gives no tasks; otherwise it raises `TypeError`; only a record can reset the load |
| TaskCodec.DecodeFile | task_manager.py:264-273 | no file if and only if the outcome is an early return; bad UTF-8 if and only if `UnicodeDecodeError`; text that is not JSON if and only if a `JSONDecodeError` reset; a top level that is not an object if and only if `AttributeError`; an object without `tasks` loads as an empty list |
| TaskCodec.RecordsRoundTrip | task_manager.py:253-271 | decoding the saved records gives back the tasks in order when no id is empty |
| TaskCodec.DecodeRecordsFirstFailure | task_manager.py:271-273 | the first record that fails decides the outcome; no partial list is kept |
| TaskCodec.MissingKeyResets | task_manager.py:271-273 | a record that lacks a required key, after records that decode, resets the list to empty |
| TaskCodec.SaveLoadRoundTrip | task_manager.py:248-273 | loading the saved document gives back the same values in the same order when no id is empty |
| TaskCodec.LoadExamples | task_manager.py:264-273 | missing file: early return; empty or non-JSON file: reset to empty; top-level list: `AttributeError`; `{}`: empty list |
| TaskQueries.Keep | task_manager.py:138-147 | the listing keeps every accepted element and only accepted ones, and is no longer than the list |
| TaskQueries.KeepMultiplicity | task_manager.py:138-147 | the listing holds each element exactly as many times as it stands at an accepted position |
| TaskQueries.KeepSnoc | task_manager.py:209-226 | appending a task to the list appends it to the listing exactly when it is accepted |
| TaskQueries.KeepPrefixStep | task_manager.py:211-224 | one pass of the search loop extends the results for the prefix by the accepted task |
| TaskQueries.KeepIsSubsequence | task_manager.py:138-147 | every listing keeps the list's order |
| TaskQueries.KeepThree | task_manager.py:211-224 | on three tasks the listing is the accepted ones in order |
| TaskQueries.KeepEverything | task_manager.py:209-226 | a criterion that accepts every task keeps the whole list |
| TaskQueries.SearchWithoutFilters | task_manager.py:214-221 | with no keyword and no due date (or empty ones) the search returns every task |
| TaskQueries.SearchIsConjunction | task_manager.py:212-224 | keyword and due date combine with AND: the search is the due-date filter of the keyword search |
| TaskQueries.SearchCaseInsensitive | task_manager.py:215-217 | searching for a keyword or for its lower case gives the same tasks |
| TaskQueries.SearchIgnoresCase | task_manager.py:215-217 | two keywords that differ only in letter case select the same tasks |
| TaskQueries.UpperCaseKeyword | task_manager.py:215-217 | searching for `PYTHON` selects the same tasks as searching for `Python` |
| TaskQueries.PythonKeyword | test_task_manager.py:136-141 | `Python` occurs, ignoring case, in the two Python tasks and in neither text of the Java task |
| TaskQueries.SearchExamples | test_task_manager.py:134-150 | the three searches of the search test each select the first and third task |
| TaskQueries.PendingCompletedPartition | task_manager.py:131-147 | pending and completed listings have lengths that add up to the list's length, and together hold the list's elements exactly |
| TaskQueries.FindFirst | task_manager.py:159-162 | none if and only if no task has the id; otherwise the index of the first task with it |
| TaskQueries.FindFirstSameIds | task_manager.py:159-162 | lists with the same ids position by position have the same first match |
| TaskQueries.CompleteFirst | task_manager.py:174-178 | completion keeps the length and every id |
| TaskQueries.CompleteFirstEffect | task_manager.py:164-179 | only the first match changes: completed, `updated_at` now, other fields kept; an absent id changes nothing |
| TaskQueries.CompleteFirstIdempotent | task_manager.py:164-179 | a repeat completion finds the same task, and gives the state of one completion at the later clock reading |
| TaskQueries.RemoveAt | task_manager.py:193 | removal at an index shortens the list by one |
| TaskQueries.CountId | task_manager.py:159-162 | the number of tasks with an id is zero if and only if there is no first match |
| TaskQueries.CountIdSplit | task_manager.py:159-162 | counting an id over a concatenation adds the counts of the parts |
| TaskQueries.RemoveFirstEffect | task_manager.py:191-195 | deletion removes exactly the first match: one task fewer, one occurrence of the id fewer, the rest in order; an absent id changes nothing |
| TaskQueries.RemoveAtCountId | task_manager.py:193 | removing a task with the id lowers the id's count by one |
| TaskQueries.RemoveAtMultiset | task_manager.py:193 | removal takes out exactly that one element |
| TaskQueries.RemoveAtIsSubsequence | task_manager.py:193 | removal keeps the order of the remaining tasks |
| TaskQueries.DeleteTwiceNotFound | test_task_manager.py:127-132 | after deleting the only task with an id, the id is not found |
| TaskManagement.TaskManager.constructor | task_manager.py:98-99 | a new manager has the given file and no tasks |
| TaskManagement.TaskManager.SaveTasks | task_manager.py:248-258 | the file becomes the saved document of the current values |
| TaskManagement.TaskManager.AddTask | task_manager.py:102-120 | a task is added if and only if the data are valid; on success one new object with the arguments verbatim, not completed, is appended and the list saved; otherwise nothing changes |
| TaskManagement.TaskManager.Append | task_manager.py:118-119 | the object goes at the end, earlier tasks are untouched, and the list is saved |
| TaskManagement.TaskManager.GetAllTasks | task_manager.py:122-129 | the list itself |
| TaskManagement.TaskManager.GetPendingTasks | task_manager.py:131-138 | the not-completed tasks in list order |
| TaskManagement.TaskManager.GetCompletedTasks | task_manager.py:140-147 | the completed tasks in list order |
| TaskManagement.TaskManager.GetTaskById | task_manager.py:149-162 | the object at the first match, or none if and only if no task has the id |
| TaskManagement.TaskManager.MarkTaskCompleted | task_manager.py:164-179 | true if and only if the id is found; the values become `CompleteFirst` of the old ones; saved only on success |
| TaskManagement.TaskManager.CompleteObject | task_manager.py:176 | `mark_completed` on the object at the first match changes that task's values only; the list is the same list |
| TaskManagement.TaskManager.DeleteTask | task_manager.py:181-196 | true if and only if the id is found; the object at the first match is removed; values become `RemoveFirst` of the old ones; saved only on success |
| TaskManagement.TaskManager.RemoveObject | task_manager.py:193 | `list.remove` drops the object at its one position and keeps the rest in order |
| TaskManagement.TaskManager.SearchTasks | task_manager.py:198-226 | the results are exactly the tasks accepted by both filters, in list order |
| TaskManagement.TaskManager.SearchMatches | task_manager.py:212-221 | one pass of the loop decides `match` as the two filters do |
| TaskManagement.TaskManager.LoadTasks | task_manager.py:260-273 | the outcome is `DecodeFile` of the file; a decoded list replaces the tasks, a caught error empties them, and a missing file or a propagating error leaves them |
| TaskManagement.NewTasks | task_manager.py:271 | one new object per decoded record, distinct, holding the records in order |
| TaskManagement.LoadedIdsNonEmpty | task_manager.py:27 | with a non-empty generated id, every loaded task has a non-empty id |
| TaskManagement.Open | task_manager.py:91-100 | a new manager on the file with the load outcome applied |
| TaskManagement.Reopen | task_manager.py:248-273 | a manager opened on the file another manager saved holds the same values in the same order |
| TaskManagement.AddTwoTasks | test_task_manager.py:155-156 | two valid adds to an empty manager give exactly those two tasks, saved |
| TaskManagement.SaveAndLoadScenario | test_task_manager.py:152-163 | the second manager of the save-and-load test finds both tasks, with their titles, descriptions, due dates and ids, in order |

## Left out

- Display: `display_tasks`, `display_pending_tasks`, `display_completed_tasks` and `Task.__str__` only print, so they are not modelled.
- Other files: `main.py`, `cli.py` and `demo.py` are menu loops and a scripted demonstration over the core. They are not part of this model, and neither are the statistics that `cli.py` asks for.
- File I/O and JSON: real files, JSON text with its `indent`/`ensure_ascii` layout, and UTF-8 decoding are not modelled.
  - The file is the abstract `DataFile` value.
  - An I/O error other than a missing file (permissions, a full disk) is not modelled.
  - The file vanishing between the `os.path.exists` test and `open` is not modelled. Python's `except` catches that `FileNotFoundError` and empties the list (`task_manager.py:272`); in the model a file that exists at the test can always be read.
- The clock: `datetime.now()` and the local time zone are parameters, not computed.
- Unicode: `lower()` folds the ASCII letters only. `strip()` uses Python's whitespace set. `%Y`, `%m` and `%d` accept ASCII digits only; Python's `\d` also accepts other Unicode decimal digits.
- Numbers: JSON numbers are integers; floating-point values are not modelled.
- TaskCodec.TypedFields: the `WrongType` failure described in the next line is raised here; Python performs no such check.
- TaskCodec.FromDict: a field of the wrong type (say `"completed": "yes"`) is stored as it is by Python, where the model reports `WrongType`. `load_tasks` then reports `Raised(UntypedField(key))` and keeps the tasks. The model has typed fields and cannot hold such a value.
- TaskManagement.TaskManager.LoadTasks: one clock reading stands for all generated ids of one load. Python reads the clock once per record with a falsy `task_id`.
- TaskManagement.Open: when the load raises (`Raised`), Python's constructor raises and no manager exists. The model returns a manager with an empty list together with the outcome.
- TaskManagement.TaskManager.GetAllTasks: it returns the list value; a caller mutating Python's shared list object is not modelled.
