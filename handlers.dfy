/**
 * The storage and command-handler layer of todo.py. The backing JSON file is
 * abstract: what it currently holds, and the log of every full overwrite.
 * Printing is modelled as lines appended to the two output streams, and the
 * process exit status as a returned code.
 */
module Handlers {
  import opened Wrappers
  import opened Repository
  import opened Display

  /** What the backing file holds when a command starts. */
  datatype FileContent =
    | Missing                   // no file at the path yet
    | InvalidJson(error: string) // reading or parsing raised a ValueError (JSON syntax or UTF-8 decoding) with this message
    | NotArray                  // valid JSON whose top-level value is not a list
    | Holds(tasks: seq<Task>)   // a JSON array of task records

  const NotArrayError: string := "Tasks file must contain a JSON array"

  /** The list `load_tasks` returns: the stored array, or an empty list in every other case. */
  function LoadedTasks(f: FileContent): (ts: seq<Task>)
    ensures f.Holds? ==> ts == f.tasks
    ensures !f.Holds? ==> ts == []
  {
    if f.Holds? then f.tasks else []
  }

  /** The overwrites `load_tasks` itself performs: `[]` is written unless an array was read. */
  function LoadWrites(f: FileContent): (w: seq<seq<Task>>)
    ensures w == [] <==> f.Holds?
    ensures |w| <= 1 && forall i :: 0 <= i < |w| ==> w[i] == []
  {
    if f.Holds? then [] else [[]]
  }

  /** The diagnostic `load_tasks` prints to stderr: only for a corrupted file. */
  function LoadDiagnostics(f: FileContent): (d: seq<string>)
    ensures (f.Missing? || f.Holds?) <==> d == []
  {
    match f
    case InvalidJson(e) => [CorruptedMessage(e)]
    case NotArray => [CorruptedMessage(NotArrayError)]
    case _ => []
  }

  /** The stderr line for a corrupted file; the error text can be read back from it. */
  function CorruptedMessage(error: string): (m: string)
    ensures |m| == |error| + 58
    ensures m[38..38 + |error|] == error
  {
    "Error: Corrupted tasks file detected (" + error + "). Reinitializing..."
  }

  /** The stderr line for an unknown id; the id can be read back from it. */
  function NotFoundMessage(id: int): (m: string)
    ensures 23 < |m| && DecimalToInt(m[13..|m| - 10]) == Some(id)
  {
    IntToDecimalRoundTrip(id);
    assert ("Error: Task #" + IntToDecimal(id) + " not found")[13..|IntToDecimal(id)| + 13] == IntToDecimal(id);
    "Error: Task #" + IntToDecimal(id) + " not found"
  }

  /**
   * Loading repairs the file: after one load, loading again gives the same
   * list, writes nothing and reports nothing.
   */
  lemma LoadIsIdempotent(f: FileContent)
    ensures var again := Holds(LoadedTasks(f));
            && LoadedTasks(again) == LoadedTasks(f)
            && LoadWrites(again) == [] && LoadDiagnostics(again) == []
  {
  }

  /** One installation of the program: its backing file and the streams a command writes to. */
  class TodoApp {
    var file: FileContent
    var writes: seq<seq<Task>>
    var stdout: seq<string>
    var stderr: seq<string>

    constructor (initial: FileContent)
      ensures file == initial && writes == [] && stdout == [] && stderr == []
    {
      file := initial;
      writes := [];
      stdout := [];
      stderr := [];
    }

    /**
     * `load_tasks`: a missing or corrupted file is reinitialised to `[]` and
     * read as an empty list; afterwards the file holds exactly what was returned.
     */
    method LoadTasks() returns (tasks: seq<Task>)
      modifies this
      ensures tasks == LoadedTasks(old(file))
      ensures file == Holds(tasks)
      ensures writes == old(writes) + LoadWrites(old(file))
      ensures stderr == old(stderr) + LoadDiagnostics(old(file))
      ensures stdout == old(stdout)
    {
      match file
      case Missing =>
        SaveTasks([]);
        tasks := [];
      case InvalidJson(e) =>
        stderr := stderr + [CorruptedMessage(e)];
        SaveTasks([]);
        tasks := [];
      case NotArray =>
        stderr := stderr + [CorruptedMessage(NotArrayError)];
        SaveTasks([]);
        tasks := [];
      case Holds(stored) =>
        tasks := stored;
    }

    /** `save_tasks`: overwrite the whole file with the list. */
    method SaveTasks(tasks: seq<Task>)
      modifies this
      ensures file == Holds(tasks)
      ensures writes == old(writes) + [tasks]
      ensures stdout == old(stdout) && stderr == old(stderr)
    {
      file := Holds(tasks);
      writes := writes + [tasks];
    }

    /** `handle_add`: load, add, always save, confirm on stdout. */
    method HandleAdd(text: string, now: string) returns (exitCode: int)
      modifies this
      ensures var before := LoadedTasks(old(file));
              var t := Task(NextId(before), text, false, Some(now));
              && file == Holds(before + [t])
              && writes == old(writes) + LoadWrites(old(file)) + [before + [t]]
              && stdout == old(stdout) + ["Added task #" + IntToDecimal(t.id) + ": " + text]
              && stderr == old(stderr) + LoadDiagnostics(old(file))
      ensures exitCode == 0
    {
      var tasks := LoadTasks();
      var list := new TaskList(tasks);
      var t := list.AddTask(text, now);
      SaveTasks(list.tasks);
      stdout := stdout + ["Added task #" + IntToDecimal(t.id) + ": " + text];
      exitCode := 0;
    }

    /** `handle_list`: load and list; nothing is saved beyond what loading repairs. */
    method HandleList(parse: string -> Option<DateTime>) returns (exitCode: int)
      modifies this
      ensures var before := LoadedTasks(old(file));
              && file == Holds(before)
              && writes == old(writes) + LoadWrites(old(file))
              && stderr == old(stderr) + LoadDiagnostics(old(file))
              && stdout == old(stdout) + Listing(before, parse)
      ensures exitCode == 0
    {
      var tasks := LoadTasks();
      var lines := ListTasks(tasks, parse);
      stdout := stdout + lines;
      exitCode := 0;
    }

    /**
     * `handle_complete`: save and confirm only when the task exists; otherwise
     * report the id on stderr, save nothing and exit with status 1.
     */
    method HandleComplete(id: int) returns (exitCode: int)
      modifies this
      ensures var before := LoadedTasks(old(file));
              var found := HasId(before, id);
              && exitCode == (if found then 0 else 1)
              && file == Holds(MarkCompleted(before, id))
              && writes == old(writes) + LoadWrites(old(file))
                           + (if found then [MarkCompleted(before, id)] else [])
              && stdout == old(stdout)
                           + (if found then ["Marked task #" + IntToDecimal(id) + " as complete"] else [])
              && stderr == old(stderr) + LoadDiagnostics(old(file))
                           + (if found then [] else [NotFoundMessage(id)])
    {
      var tasks := LoadTasks();
      var list := new TaskList(tasks);
      var ok := list.CompleteTask(id);
      if ok {
        SaveTasks(list.tasks);
        stdout := stdout + ["Marked task #" + IntToDecimal(id) + " as complete"];
        exitCode := 0;
      } else {
        stderr := stderr + [NotFoundMessage(id)];
        exitCode := 1;
      }
    }

    /**
     * `handle_delete`: save and confirm only when the task exists; otherwise
     * report the id on stderr, save nothing and exit with status 1.
     */
    method HandleDelete(id: int) returns (exitCode: int)
      modifies this
      ensures var before := LoadedTasks(old(file));
              var found := HasId(before, id);
              && exitCode == (if found then 0 else 1)
              && file == Holds(WithoutId(before, id))
              && writes == old(writes) + LoadWrites(old(file))
                           + (if found then [WithoutId(before, id)] else [])
              && stdout == old(stdout)
                           + (if found then ["Deleted task #" + IntToDecimal(id)] else [])
              && stderr == old(stderr) + LoadDiagnostics(old(file))
                           + (if found then [] else [NotFoundMessage(id)])
    {
      var tasks := LoadTasks();
      var list := new TaskList(tasks);
      var ok := list.DeleteTask(id);
      if ok {
        SaveTasks(list.tasks);
        stdout := stdout + ["Deleted task #" + IntToDecimal(id)];
        exitCode := 0;
      } else {
        stderr := stderr + [NotFoundMessage(id)];
        exitCode := 1;
      }
    }
  }
}
