# A verified model of the CLI todo app's task store

This project models the core of a small command-line task manager (`todo.py`).
Tasks live in one JSON array on disk. Each command loads that array, changes it
in memory and saves it again. The model covers three parts:

- **Repository** (`repository.dfy`): the task record; `get_next_id` (one more than the
  largest id, or 1); `find_task_by_id` (linear search, first match);
  `complete_task` (set the flag in place); `delete_task` (find, then `list.remove`).
  The list that these functions change in place is the field of the class
  `TaskList`. Each method is proved against a specification function
  (`NextId`, `FirstIndex`, `MarkCompleted`, `WithoutId`). Lemmas prove that
  ids stay positive and distinct, that completion is idempotent, and that
  deletion keeps the order of the other tasks.
- **Display** (`display.dfy`): `format_task` builds `[<id>] [<mark>] <text> (<timestamp>)`.
  The mark for a completed task is the literal the source file holds at todo.py:183:
  the three characters U+00E2 U+0153 U+201C ("âœ“"), which are the UTF-8 bytes of
  U+2713 (CHECK MARK) read as Windows-1252. An open task shows a single blank. The
  model prints the three characters, as Python does. The timestamp is
  `%Y-%m-%d %H:%M`, or `Unknown` when `created_at` is missing or cannot be parsed.
  `list_tasks` prints one line per task in order, or `No tasks found.` for an empty list.
  Integer and zero-padded rendering are modelled digit by digit, with
  read-back lemmas.
- **Handlers** (`handlers.dfy`): `load_tasks`, `save_tasks` and the `add`, `list`,
  `complete` and `delete` handlers, as methods of `TodoApp`. That class holds an
  abstract backing file (missing, invalid JSON, not an array, or an array of tasks),
  the log of every overwrite of that file, and the lines printed to stdout and
  stderr. Each handler returns its exit status.
  `scenarios.dfy` chains the handler contracts through the typical life of a task,
  an unknown id, a corrupted file, and a save followed by a load.

`wrappers.dfy` holds the `Option` type that stands for Python's `None`.

The model follows what the code does, including where that differs from what
is often assumed of it:

- Ids are not guaranteed to stay unused after a deletion. `get_next_id`
  recomputes `max + 1` over the tasks still present (todo.py:96). So deleting the
  task with the largest id and adding a new one can hand out the deleted id
  again. `Repository.DeletingMaxLowersNextId` and `Repository.DeleteThenAddReusesId`
  state this. What the model proves instead is that a new id is larger than
  every id currently in the list.
- Ids are meant to be unique and positive, but the code never checks this on
  load. The model proves only that add, complete and delete preserve the
  invariant when it already holds.
- Saves are not atomic. The code opens the file for writing, which truncates
  it, and then writes (todo.py:80-81). The model treats each save as a single
  full overwrite.

## Model

| member | source | states |
|---|---|---|
| `Repository.MaxId` | todo.py:96 | the result is an id of some task in the list, and no task has a larger id |
| `Repository.NextId` | todo.py:94-96 | 1 for an empty list; otherwise exactly one more than some task's id, and strictly greater than every id in the list |
| `Repository.AddAdvancesNextId` | todo.py:94-96 | after a task with the next id is appended, the next id is one above it, so successive adds assign 1, 2, 3, … from an empty list |
| `Repository.FirstIndex` | todo.py:131-134 | None exactly when no task has the id; otherwise a position holding that id with no earlier task holding it |
| `Repository.FindTaskById` | todo.py:131-134 | the search loop returns None exactly when the id is absent, otherwise the first position holding it |
| `Repository.MarkCompleted` | todo.py:148-152 | same length, ids, texts and timestamps at every position; `completed` becomes true only at the first task with the id; no change when the id is absent |
| `Repository.CompleteIsIdempotent` | todo.py:148-152 | completing the same id twice gives the same list as completing it once |
| `Repository.CompleteKeepsValidIds` | todo.py:151 | completion keeps ids positive and distinct |
| `Repository.RemoveFirst` | todo.py:169 | `list.remove` on a present record leaves a list exactly one shorter |
| `Repository.RemoveFirstDropsOne` | todo.py:169 | the removed element is one copy of the given record and every other element stays (multisets differ by exactly that record) |
| `Repository.RemoveFirstAt` | todo.py:166-169 | removing the first element equal to the found record cuts out exactly the found position |
| `Repository.WithoutId` | todo.py:166-170 | no change when the id is absent; otherwise the list minus the first task with the id, with the others in their original order |
| `Repository.CutKeepsValidIds` | todo.py:169 | cutting one position out of a list with valid ids leaves valid ids, and the cut id no longer occurs |
| `Repository.DeleteKeepsValidIds` | todo.py:166-170 | deletion keeps ids positive and distinct, and the deleted id is then absent |
| `Repository.DeletingMaxLowersNextId` | todo.py:94-96 | after deleting the task with the largest id, the next id is no larger than the deleted one (ids are not reserved) |
| `Repository.DeletingMaxReusesIdIff` | todo.py:94-96 | after deleting the task with the largest id `m`, the next id is `m` again exactly when `m - 1` is still in use, or `m` was the only id and equals 1 |
| `Repository.DeleteThenAddReusesId` | todo.py:96 | deleting the only task, id 1, makes the next id 1 again |
| `Repository.AddKeepsValidIds` | todo.py:110-116 | appending a task with the next id keeps ids positive and distinct |
| `Repository.TaskList.AddTask` | todo.py:110-117 | appends exactly one task at the end, with the next id, the given text, not completed and the given timestamp, and returns that task |
| `Repository.TaskList.CompleteTask` | todo.py:148-152 | returns whether the id was present; the list becomes `MarkCompleted` of the old list |
| `Repository.TaskList.DeleteTask` | todo.py:166-170 | returns whether the id was present; the list becomes `WithoutId` of the old list |
| `Display.NatToDecimal` | todo.py:194 | decimal digits only, at least one, with no leading zero |
| `Display.IntToDecimal` | todo.py:184-194 | a leading '-' exactly for negative ids; every other character is a decimal digit |
| `Display.IntToDecimalRoundTrip` | todo.py:194 | the rendered id reads back as the same integer |
| `Display.ZeroPadded` | todo.py:190 | exactly `width` decimal digits |
| `Display.ZeroPaddedValue` | todo.py:190 | a number that fits in `width` digits reads back from its padded form |
| `Display.Strftime` | todo.py:190 | 16 characters, with '-', '-', ' ' and ':' at columns 4, 7, 10 and 13 |
| `Display.StrftimeFields` | todo.py:190 | for a valid date and time, year, month, day, hour and minute read back from their columns |
| `Display.FormatTimestamp` | todo.py:187-192 | "Unknown" exactly when `created_at` is missing or does not parse; otherwise the formatted date and time |
| `Display.StatusMark` | todo.py:183 | the mark is a single blank exactly for an open task; it is never empty and never contains `]` |
| `Display.FormatTask` | todo.py:173-194 | the line is as long as the id, the mark, the text and the timestamp together, plus nine characters of brackets, blanks and parentheses |
| `Display.FormatTaskLayout` | todo.py:183-194 | the line opens with `[` at column 0 and closes with `)` at its last column; in between come the id, `] [`, the status mark, `] `, the text, ` (` and the timestamp; every column after the mark is offset by the mark's width (three for a completed task, one for an open one) |
| `Display.LineLayout` | todo.py:194 | for any id, mark, text and timestamp, the line `[<id>] [<mark>] <text> (<timestamp>)` opens with `[`, closes with `)`, and each part in between sits at the columns that the lengths of the earlier parts give |
| `Display.IdIsBracketed` | todo.py:194 | the line opens with `[`, the id fills the first bracket pair, and the first `]` of the line comes right after the id |
| `Display.FormatTaskShowsIdAndStatus` | todo.py:183-194 | two tasks that print as the same line have the same id and the same completion state |
| `Display.Listing` | todo.py:204-209 | exactly "No tasks found." for an empty list; otherwise one formatted line per task, in list order |
| `Display.ListTasks` | todo.py:204-209 | the listing loop produces exactly the lines of `Listing` |
| `Display.TaskLineIsNotEmptyMessage` | todo.py:204-209 | a task line is never the empty-list message |
| `Handlers.LoadedTasks` | todo.py:52-69 | the stored list when the file holds an array; an empty list when it is missing or corrupt |
| `Handlers.LoadWrites` | todo.py:52-69 | `load_tasks` writes exactly when no array was read, and then writes `[]` once |
| `Handlers.CorruptedMessage` | todo.py:65 | the corruption line carries the error text verbatim, at a fixed column |
| `Handlers.NotFoundMessage` | todo.py:248 | the not-found line carries the id, which reads back as the same integer (the same line at todo.py:264) |
| `Handlers.LoadIsIdempotent` | todo.py:52-69 | after one load, loading again gives the same list, writes nothing and prints nothing |
| `Handlers.LoadDiagnostics` | todo.py:64-66 | a diagnostic is printed exactly for a corrupt file, never for a missing or valid one |
| `Handlers.TodoApp.LoadTasks` | todo.py:49-69 | returns the loaded list; a missing or corrupt file is rewritten as `[]` and a corrupt one reported on stderr; afterwards the file holds exactly the returned list |
| `Handlers.TodoApp.SaveTasks` | todo.py:79-81 | the whole file is overwritten with the list; one write is logged |
| `Handlers.TodoApp.HandleAdd` | todo.py:219-222 | load, append the new task, always save, print `Added task #<id>: <text>`, exit 0 |
| `Handlers.TodoApp.HandleList` | todo.py:232-233 | load and print the listing; nothing is saved beyond what loading repairs; exit 0 |
| `Handlers.TodoApp.HandleComplete` | todo.py:243-249 | saves and confirms only when the id exists; otherwise no save, `Error: Task #<id> not found` on stderr and exit 1 |
| `Handlers.TodoApp.HandleDelete` | todo.py:259-265 | saves and confirms only when the id exists; otherwise no save, the same error and exit 1 |
| `Scenarios.AddToFreshInstall` | todo.py:219-233 | with no file, `add "Buy milk"` stores task 1 uncompleted and `list` prints `[1] [ ] Buy milk (<timestamp>)` |
| `Scenarios.CompleteThenList` | todo.py:232-249 | `complete 1` stores it completed and `list` prints `[1] [âœ“] Buy milk (<timestamp>)`, with the three-character mark of todo.py:183 |
| `Scenarios.DeleteThenList` | todo.py:232-265 | `delete 1` leaves an empty array and `list` prints "No tasks found." |
| `Scenarios.CompleteMissing` | todo.py:243-249 | `complete 99` on an empty list exits 1, names id 99 on stderr and never writes the file |
| `Scenarios.ListCorruptFile` | todo.py:58-69 | a non-array file is reported, rewritten as `[]`, and listed as empty |
| `Scenarios.SaveThenLoad` | todo.py:58-81 | under the abstract file, saving a list and loading it again gives back that list (this is not a JSON round-trip) |

## Left out

- Save failures part-way through `json.dump`. An example: command-line bytes that are not valid UTF-8 reach Python as a lone surrogate in `text`, and `json.dump(..., ensure_ascii=False)` then raises UnicodeEncodeError during todo.py:81. By then the file was already truncated at todo.py:80, so it is left holding partial JSON. The next command reports it as corrupted and resets it to `[]` (todo.py:64-69), and every task is lost. A Dafny `string` cannot hold a lone surrogate, and the model treats each save as one complete overwrite.
- JSON encoding and decoding, the file path computation (`get_tasks_file_path`) and real file I/O. The file is an abstract value. A JSON decode error is kept only as its message text.
- I/O failures such as permission errors or a full disk. The code does not handle them, and the model does not represent them.
- Records that are not well-formed task objects: a missing `id`, `text` or `completed` key, or a field of the wrong type. The model's task type always has all four fields, with an integer id and a string text, so it excludes all of these. Python raises for some of them: a missing `id` on lookup, a missing `text` or `completed` when listing, a `created_at` that is not a string (a TypeError that todo.py:191 does not catch). It silently accepts others: a non-string `text` or a non-boolean `completed` is listed as is, a record without `completed` is completed by adding the key (todo.py:151), a record without `text` can be deleted (todo.py:166-170), and a float id such as 1.5 gives next id 2.5 (todo.py:96). Only a missing `created_at` is represented, because `format_task` catches that case.
- `datetime.now()` is a parameter of `HandleAdd`. `datetime.fromisoformat` is the abstract parameter `parse`, with None standing for ValueError.
- Display.Strftime: years below 1000 are zero-padded to four digits. The platform's C `strftime` may print them with fewer digits.
- Aliasing between records. The Python list holds references to dicts, and `complete_task` writes through the reference it found. The model updates the record at that position. Loaded lists never share a record, so this loses nothing for lists read from the file.
- Repository.RemoveFirst: it requires the record to be present, where `list.remove` would raise ValueError. Its only caller passes a record it has just found.
- `create_parser` and `main`: the argparse setup and dispatch. Usage errors for missing arguments belong to argparse.
- Printing is modelled as lines appended to the two streams. `sys.exit(1)` is modelled as the returned exit status.
- Concurrent invocations racing on the backing file. There is no locking, and the program is single-threaded.
