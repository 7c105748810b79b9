/**
 * End-to-end runs of the command handlers, derived only from their
 * contracts. The first three follow the life of one task across separate
 * invocations, each starting from the file the previous one left; the last
 * looks up an id that does not exist.
 */
module Scenarios {
  import opened Wrappers
  import opened Repository
  import opened Display
  import opened Handlers

  /**
   * With no backing file: `add "Buy milk"`, then `list`. The task gets id 1,
   * is stored uncompleted, and is listed with a blank mark.
   */
  method AddToFreshInstall(now: string, parse: string -> Option<DateTime>)
    returns (out: seq<string>, codes: seq<int>, stored: FileContent)
    ensures codes == [0, 0]
    ensures out == ["Added task #1: Buy milk", "[1] [ ] Buy milk (" + FormatTimestamp(Some(now), parse) + ")"]
    ensures stored == Holds([Task(1, "Buy milk", false, Some(now))])
  {
    var app := new TodoApp(Missing);
    var open := Task(1, "Buy milk", false, Some(now));
    assert NextId([]) == 1;
    assert "Added task #" + IntToDecimal(1) + ": " + "Buy milk" == "Added task #1: Buy milk";
    var c1 := app.HandleAdd("Buy milk", now);
    assert app.file == Holds([open]);
    var c2 := app.HandleList(parse);
    assert Listing([open], parse) == [FormatTask(open, parse)];
    OpenBuyMilkLine(open, parse);
    out, codes, stored := app.stdout, [c1, c2], app.file;
  }

  /**
   * Then `complete 1` and `list`: the same task is now listed with the
   * completed mark, the three characters the source's status literal holds.
   */
  method CompleteThenList(now: string, parse: string -> Option<DateTime>)
    returns (out: seq<string>, codes: seq<int>, stored: FileContent)
    ensures codes == [0, 0]
    ensures out == ["Marked task #1 as complete", "[1] [\U{00E2}\U{0153}\U{201C}] Buy milk (" + FormatTimestamp(Some(now), parse) + ")"]
    ensures stored == Holds([Task(1, "Buy milk", true, Some(now))])
  {
    var open := Task(1, "Buy milk", false, Some(now));
    var done := open.(completed := true);
    var app := new TodoApp(Holds([open]));
    assert FirstIndex([open], 1) == Some(0);
    assert MarkCompleted([open], 1) == [done];
    assert "Marked task #" + IntToDecimal(1) + " as complete" == "Marked task #1 as complete";
    var c1 := app.HandleComplete(1);
    var c2 := app.HandleList(parse);
    assert Listing([done], parse) == [FormatTask(done, parse)];
    DoneBuyMilkLine(done, parse);
    out, codes, stored := app.stdout, [c1, c2], app.file;
  }

  /** How the open task 1, "Buy milk", is listed. */
  lemma OpenBuyMilkLine(t: Task, parse: string -> Option<DateTime>)
    requires t.id == 1 && t.text == "Buy milk" && !t.completed
    ensures FormatTask(t, parse) == "[1] [ ] Buy milk (" + FormatTimestamp(t.createdAt, parse) + ")"
  {
    assert IntToDecimal(1) == "1";
  }

  /** How the completed task 1, "Buy milk", is listed: with the three-character mark. */
  lemma DoneBuyMilkLine(t: Task, parse: string -> Option<DateTime>)
    requires t.id == 1 && t.text == "Buy milk" && t.completed
    ensures FormatTask(t, parse) == "[1] [\U{00E2}\U{0153}\U{201C}] Buy milk (" + FormatTimestamp(t.createdAt, parse) + ")"
  {
    assert IntToDecimal(1) == "1";
  }

  /** Then `delete 1` and `list`: the file holds an empty array and the listing says so. */
  method DeleteThenList(now: string, parse: string -> Option<DateTime>)
    returns (out: seq<string>, codes: seq<int>, stored: FileContent)
    ensures codes == [0, 0]
    ensures out == ["Deleted task #1", NoTasksMessage]
    ensures stored == Holds([])
  {
    var done := Task(1, "Buy milk", true, Some(now));
    var app := new TodoApp(Holds([done]));
    assert FirstIndex([done], 1) == Some(0);
    assert WithoutId([done], 1) == [];
    assert "Deleted task #" + IntToDecimal(1) == "Deleted task #1";
    var c1 := app.HandleDelete(1);
    var c2 := app.HandleList(parse);
    out, codes, stored := app.stdout, [c1, c2], app.file;
  }

  /**
   * `complete 99` against an empty stored list: exit status 1, an error
   * naming id 99, and the file is never written.
   */
  method CompleteMissing() returns (code: int, err: seq<string>, saved: seq<seq<Task>>)
    ensures code == 1
    ensures err == ["Error: Task #99 not found"]
    ensures saved == []
  {
    var app := new TodoApp(Holds([]));
    assert !HasId([], 99);
    code := app.HandleComplete(99);
    NotFoundLine99();
    err, saved := app.stderr, app.writes;
  }

  /** The not-found line for id 99. */
  lemma NotFoundLine99()
    ensures NotFoundMessage(99) == "Error: Task #99 not found"
  {
    assert NatToDecimal(9) == "9" && DigitChar(9) == '9';
    assert IntToDecimal(99) == "99";
  }

  /**
   * `list` over a file whose top-level JSON value is not an array: the
   * corruption is reported, the file is rewritten as `[]`, and the command
   * still succeeds with an empty listing.
   */
  method ListCorruptFile(parse: string -> Option<DateTime>)
    returns (code: int, out: seq<string>, err: seq<string>, saved: seq<seq<Task>>)
    ensures code == 0
    ensures out == [NoTasksMessage]
    ensures err == [CorruptedMessage(NotArrayError)]
    ensures saved == [[]]
  {
    var app := new TodoApp(NotArray);
    code := app.HandleList(parse);
    out, err, saved := app.stdout, app.stderr, app.writes;
  }

  /** Whatever the file held, saving a list and loading again gives back that list. */
  method SaveThenLoad(initial: FileContent, tasks: seq<Task>) returns (loaded: seq<Task>, saved: seq<seq<Task>>)
    ensures loaded == tasks
    ensures saved == [tasks]
  {
    var app := new TodoApp(initial);
    app.SaveTasks(tasks);
    loaded := app.LoadTasks();
    saved := app.writes;
  }
}
