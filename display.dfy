/**
 * How todo.py renders tasks: `format_task` builds one line per task and
 * `list_tasks` lists them, or a single message for an empty list.
 */
module Display {
  import opened Wrappers
  import opened Repository

  /** The fields of a parsed `created_at` that the display format uses. */
  datatype DateTime = DateTime(year: nat, month: nat, day: nat, hour: nat, minute: nat)

  /** The field ranges Python's `datetime` guarantees. */
  predicate ValidDateTime(dt: DateTime) {
    && 1 <= dt.year <= 9999 && 1 <= dt.month <= 12 && 1 <= dt.day <= 31
    && dt.hour <= 23 && dt.minute <= 59
  }

  /**
   * The mark shown for a completed task. The status literal in todo.py holds
   * the three characters U+00E2 U+0153 U+201C: the UTF-8 bytes of U+2713
   * (CHECK MARK) read as Windows-1252. Python prints those three characters.
   */
  const CompletedMark: string := "\U{00E2}\U{0153}\U{201C}"

  const UnknownTimestamp: string := "Unknown"

  const NoTasksMessage: string := "No tasks found."

  predicate IsDigits(s: string) {
    forall i :: 0 <= i < |s| ==> '0' <= s[i] <= '9'
  }

  function DigitChar(d: nat): (c: char)
    requires d < 10
    ensures '0' <= c <= '9' && c as int - '0' as int == d
  {
    ('0' as int + d) as char
  }

  /** The number a string of decimal digits denotes. */
  function DecimalValue(s: string): nat
    requires IsDigits(s)
  {
    if s == [] then 0
    else DecimalValue(s[..|s| - 1]) * 10 + (s[|s| - 1] as int - '0' as int)
  }

  function Pow10(k: nat): nat {
    if k == 0 then 1 else 10 * Pow10(k - 1)
  }

  /** Python's `str(n)` for a natural number: its decimal digits, no leading zero. */
  function NatToDecimal(n: nat): (s: string)
    ensures |s| >= 1 && IsDigits(s)
    ensures |s| > 1 ==> s[0] != '0'
  {
    if n < 10 then [DigitChar(n)] else NatToDecimal(n / 10) + [DigitChar(n % 10)]
  }

  /** Python's `str(i)` for any integer, as used by the f-strings. */
  function IntToDecimal(i: int): (s: string)
    ensures |s| >= 1 && (s[0] == '-' <==> i < 0)
    ensures i >= 0 ==> '0' <= s[0] <= '9'
    ensures forall k :: 0 < k < |s| ==> '0' <= s[k] <= '9'
  {
    if i < 0 then "-" + NatToDecimal(-i) else NatToDecimal(i)
  }

  /** Reading a decimal integer back, optionally signed (the inverse of `IntToDecimal`). */
  function DecimalToInt(s: string): Option<int> {
    if |s| >= 2 && s[0] == '-' then
      (if IsDigits(s[1..]) then Some(0 - DecimalValue(s[1..]) as int) else None)
    else if |s| >= 1 && IsDigits(s) then Some(DecimalValue(s))
    else None
  }

  lemma {:induction false} NatToDecimalValue(n: nat)
    ensures DecimalValue(NatToDecimal(n)) == n
  {
    if n >= 10 {
      NatToDecimalValue(n / 10);
      var s := NatToDecimal(n);
      assert s[..|s| - 1] == NatToDecimal(n / 10);
    }
  }

  /** Every id written by the display reads back as that id. */
  lemma IntToDecimalRoundTrip(i: int)
    ensures DecimalToInt(IntToDecimal(i)) == Some(i)
  {
    if i < 0 {
      NegativeReadsBack(i);
    } else {
      NaturalReadsBack(i);
    }
  }

  lemma NaturalReadsBack(i: int)
    requires i >= 0
    ensures DecimalToInt(IntToDecimal(i)) == Some(i)
  {
    var s := NatToDecimal(i);
    NatToDecimalValue(i);
    assert s[0] != '-';
  }

  lemma NegativeReadsBack(i: int)
    requires i < 0
    ensures DecimalToInt(IntToDecimal(i)) == Some(i)
  {
    var d := NatToDecimal(-i);
    var s := "-" + d;
    NatToDecimalValue(-i);
    assert s[1..] == d;
    assert DecimalValue(s[1..]) == -i;
  }

  /** `n` written with exactly `width` digits, zero-padded on the left (strftime's %Y, %m, %d, %H, %M). */
  function ZeroPadded(n: nat, width: nat): (s: string)
    ensures |s| == width && IsDigits(s)
  {
    if width == 0 then "" else ZeroPadded(n / 10, width - 1) + [DigitChar(n % 10)]
  }

  /** A number that fits in `width` digits reads back from its padded form. */
  lemma {:induction false} ZeroPaddedValue(n: nat, width: nat)
    requires n < Pow10(width)
    ensures DecimalValue(ZeroPadded(n, width)) == n
  {
    if width > 0 {
      assert n / 10 < Pow10(width - 1);
      ZeroPaddedValue(n / 10, width - 1);
      var s := ZeroPadded(n, width);
      assert s[..|s| - 1] == ZeroPadded(n / 10, width - 1);
    }
  }

  /** `strftime("%Y-%m-%d %H:%M")`: date, hour and minute, no seconds. */
  function Strftime(dt: DateTime): (s: string)
    ensures |s| == 16
    ensures s[4] == '-' && s[7] == '-' && s[10] == ' ' && s[13] == ':'
  {
    ZeroPadded(dt.year, 4) + "-" + ZeroPadded(dt.month, 2) + "-" + ZeroPadded(dt.day, 2)
    + " " + ZeroPadded(dt.hour, 2) + ":" + ZeroPadded(dt.minute, 2)
  }

  /** Each field of a valid date and time can be read back from its fixed columns. */
  lemma StrftimeFields(dt: DateTime)
    requires ValidDateTime(dt)
    ensures var s := Strftime(dt);
            && IsDigits(s[0..4]) && DecimalValue(s[0..4]) == dt.year
            && IsDigits(s[5..7]) && DecimalValue(s[5..7]) == dt.month
            && IsDigits(s[8..10]) && DecimalValue(s[8..10]) == dt.day
            && IsDigits(s[11..13]) && DecimalValue(s[11..13]) == dt.hour
            && IsDigits(s[14..16]) && DecimalValue(s[14..16]) == dt.minute
  {
    var s := Strftime(dt);
    assert Pow10(2) == 100 && Pow10(4) == 10000;
    assert s[0..4] == ZeroPadded(dt.year, 4);
    assert s[5..7] == ZeroPadded(dt.month, 2);
    assert s[8..10] == ZeroPadded(dt.day, 2);
    assert s[11..13] == ZeroPadded(dt.hour, 2);
    assert s[14..16] == ZeroPadded(dt.minute, 2);
    ZeroPaddedValue(dt.year, 4);
    ZeroPaddedValue(dt.month, 2);
    ZeroPaddedValue(dt.day, 2);
    ZeroPaddedValue(dt.hour, 2);
    ZeroPaddedValue(dt.minute, 2);
  }

  /**
   * The timestamp column. `parse` stands for `datetime.fromisoformat`, None
   * when it raises ValueError; a missing `created_at` raises KeyError. Both
   * failures show "Unknown".
   */
  function FormatTimestamp(createdAt: Option<string>, parse: string -> Option<DateTime>): (s: string)
    ensures s == UnknownTimestamp <==> createdAt.None? || parse(createdAt.value).None?
    ensures s != UnknownTimestamp ==> s == Strftime(parse(createdAt.value).value)
  {
    match createdAt
    case None => UnknownTimestamp
    case Some(text) =>
      match parse(text)
      case None => UnknownTimestamp
      case Some(dt) => Strftime(dt)
  }

  /** The text between the second pair of brackets: a blank exactly for an open task. */
  function StatusMark(completed: bool): (m: string)
    ensures m == " " <==> !completed
    ensures |m| >= 1 && ']' !in m
  {
    if completed then CompletedMark else " "
  }

  /** `format_task`: `[<id>] [<mark>] <text> (<timestamp>)`. */
  function FormatTask(t: Task, parse: string -> Option<DateTime>): (line: string)
    ensures |line| == |IntToDecimal(t.id)| + |StatusMark(t.completed)| + |t.text| + |FormatTimestamp(t.createdAt, parse)| + 9
  {
    "[" + IntToDecimal(t.id) + "] [" + StatusMark(t.completed) + "] " + t.text
    + " (" + FormatTimestamp(t.createdAt, parse) + ")"
  }

  /** The column where the status mark starts in a formatted line. */
  function MarkColumn(t: Task): nat {
    |IntToDecimal(t.id)| + 4
  }

  /**
   * A formatted line is laid out as the display promises: the id between the
   * first brackets, the mark in the second pair, then the text, then the
   * timestamp in parentheses at the end. The mark is three characters wide for
   * a completed task and one for an open one, so the columns after it shift.
   */
  lemma FormatTaskLayout(t: Task, parse: string -> Option<DateTime>)
    ensures var line := FormatTask(t, parse);
            var n := |IntToDecimal(t.id)|;
            var w := |StatusMark(t.completed)|;
            && line[0] == '[' && line[|line| - 1] == ')'
            && line[1..n + 1] == IntToDecimal(t.id)
            && line[n + 1..n + 4] == "] [" && line[MarkColumn(t)..MarkColumn(t) + w] == StatusMark(t.completed)
            && line[n + 4 + w..n + 6 + w] == "] " && line[n + 6 + w..n + 6 + w + |t.text|] == t.text
            && line[n + 6 + w + |t.text|..n + 8 + w + |t.text|] == " ("
            && line[n + 8 + w + |t.text|..|line| - 1] == FormatTimestamp(t.createdAt, parse)
  {
    LineLayout(IntToDecimal(t.id), StatusMark(t.completed), t.text, FormatTimestamp(t.createdAt, parse));
  }

  /** The columns of `[<id>] [<m>] <text> (<ts>)`, for any parts. */
  lemma LineLayout(id: string, m: string, text: string, ts: string)
    ensures var line := "[" + id + "] [" + m + "] " + text + " (" + ts + ")";
            var n, w := |id|, |m|;
            && line[0] == '[' && line[|line| - 1] == ')'
            && line[1..n + 1] == id
            && line[n + 1..n + 4] == "] [" && line[n + 4..n + 4 + w] == m
            && line[n + 4 + w..n + 6 + w] == "] " && line[n + 6 + w..n + 6 + w + |text|] == text
            && line[n + 6 + w + |text|..n + 8 + w + |text|] == " ("
            && line[n + 8 + w + |text|..|line| - 1] == ts
  {
    var line := "[" + id + "] [" + m + "] " + text + " (" + ts + ")";
    var a := "[" + id + "] [" + m + "] ";
    var b := " (" + ts + ")";
    assert line == a + text + b;
    HeadLayout(id, m);
    SliceOfConcat([], a, text + b);
    SliceOfConcat(a, text, b);
    SliceOfConcat(a + text, " (", ts + ")");
    SliceOfConcat(a + text + " (", ts, ")");
  }

  /** The part of a line before the text: `[`, the id, `] [`, the mark, `] `. */
  lemma HeadLayout(id: string, m: string)
    ensures var a := "[" + id + "] [" + m + "] ";
            var n := |id|;
            && |a| == n + |m| + 6 && a[1..n + 1] == id && a[n + 1..n + 4] == "] ["
            && a[n + 4..n + 4 + |m|] == m && a[n + 4 + |m|..] == "] "
  {
    SliceOfConcat("[", id, "] [" + m + "] ");
    SliceOfConcat("[" + id, "] [", m + "] ");
    SliceOfConcat("[" + id + "] [", m, "] ");
  }

  /** The middle part of a concatenation sits at the columns after the first part. */
  lemma SliceOfConcat<T>(x: seq<T>, y: seq<T>, z: seq<T>)
    ensures (x + y + z)[|x|..|x| + |y|] == y
  {
  }

  /** In a formatted line the id fills columns 1..n and the first ']' closes it. */
  lemma IdIsBracketed(t: Task, parse: string -> Option<DateTime>)
    ensures var line := FormatTask(t, parse);
            var n := |IntToDecimal(t.id)|;
            && n + 4 < |line| && line[0] == '[' && line[1..n + 1] == IntToDecimal(t.id) && line[n + 1] == ']'
            && (forall k :: 0 <= k <= n ==> line[k] != ']')
            && line[MarkColumn(t)] == StatusMark(t.completed)[0]
  {
    var s := IntToDecimal(t.id);
    var line := FormatTask(t, parse);
    var head := "[" + s + "] [";
    assert |head| == |s| + 4;
    assert line[..|head|] == head by {
      assert line == head + StatusMark(t.completed) + "] " + t.text
                     + " (" + FormatTimestamp(t.createdAt, parse) + ")";
    }
    forall k | 1 <= k <= |s| ensures line[k] != ']' {
      assert line[k] == head[k] == s[k - 1];
    }
    assert line[|s| + 1] == head[|s| + 1];
    assert line[1..|s| + 1] == head[1..|s| + 1] == s;
  }

  /**
   * Two tasks that print as the same line have the same id and the same
   * completion state: the listing shows both unambiguously.
   */
  lemma FormatTaskShowsIdAndStatus(t1: Task, t2: Task, parse: string -> Option<DateTime>)
    requires FormatTask(t1, parse) == FormatTask(t2, parse)
    ensures t1.id == t2.id && t1.completed == t2.completed
  {
    var line := FormatTask(t1, parse);
    var s1, s2 := IntToDecimal(t1.id), IntToDecimal(t2.id);
    IdIsBracketed(t1, parse);
    IdIsBracketed(t2, parse);
    // A shorter id would put its closing bracket where the longer one has a digit.
    assert |s1| == |s2|;
    assert s1 == line[1..|s1| + 1] == s2;
    IntToDecimalRoundTrip(t1.id);
    IntToDecimalRoundTrip(t2.id);
    assert StatusMark(true)[0] != ' ';
  }

  /**
   * What `list_tasks` prints: the single "No tasks found." line for an empty
   * list, otherwise one formatted line per task, in list order.
   */
  function Listing(tasks: seq<Task>, parse: string -> Option<DateTime>): (lines: seq<string>)
    ensures tasks == [] ==> lines == [NoTasksMessage]
    ensures tasks != [] ==> |lines| == |tasks|
    ensures tasks != [] ==> forall i :: 0 <= i < |tasks| ==> lines[i] == FormatTask(tasks[i], parse)
  {
    if tasks == [] then [NoTasksMessage]
    else seq(|tasks|, i requires 0 <= i < |tasks| => FormatTask(tasks[i], parse))
  }

  /** `list_tasks`: the loop that formats the tasks one by one. */
  method ListTasks(tasks: seq<Task>, parse: string -> Option<DateTime>) returns (lines: seq<string>)
    ensures lines == Listing(tasks, parse)
  {
    if tasks == [] {
      return [NoTasksMessage];
    }
    lines := [];
    for i := 0 to |tasks|
      invariant |lines| == i
      invariant forall k :: 0 <= k < i ==> lines[k] == FormatTask(tasks[k], parse)
    {
      var line := FormatTask(tasks[i], parse);
      lines := lines + [line];
    }
    ListingOfLines(tasks, parse, lines);
  }

  /** A list of lines that formats the tasks one by one, in order, is their listing. */
  lemma ListingOfLines(tasks: seq<Task>, parse: string -> Option<DateTime>, lines: seq<string>)
    requires tasks != [] && |lines| == |tasks|
    requires forall k :: 0 <= k < |tasks| ==> lines[k] == FormatTask(tasks[k], parse)
    ensures lines == Listing(tasks, parse)
  {
  }

  /** No task line can be mistaken for the empty-list message. */
  lemma TaskLineIsNotEmptyMessage(t: Task, parse: string -> Option<DateTime>)
    ensures FormatTask(t, parse) != NoTasksMessage
  {
  }
}
