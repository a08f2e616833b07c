/** Reading back the schedules the launcher created: the root crontab is
    scanned for a marker comment followed by a cron line, day numbers are
    shown as names, and a schedule is deleted by filtering the crontab's
    lines. On Windows the CSV listing of the task scheduler is filtered for
    the launcher's tasks. The text of the crontab and of the scheduler's
    output are parameters (None when the command failed). */
module ScheduleViewer {
  import opened Wrappers
  import opened Text
  import opened HistoryRules

  /** The comment that precedes every cron line the launcher writes. */
  const Marker: string := "# py-tray-command-launcher:"

  /** One listed cron job. */
  datatype Schedule = Schedule(name: string, command: string, schedule: string, status: string, kind: string, cronLine: string)

  /** `day_map.get(d, d)`. */
  function DayName(d: string): string {
    match d
    case "0" => "Sunday"
    case "1" => "Monday"
    case "2" => "Tuesday"
    case "3" => "Wednesday"
    case "4" => "Thursday"
    case "5" => "Friday"
    case "6" => "Saturday"
    case "7" => "Sunday"
    case _ => d
  }

  function DayNames(ds: seq<string>): (r: seq<string>)
    ensures |r| == |ds| && forall i :: 0 <= i < |ds| ==> r[i] == DayName(Strip(ds[i]))
  {
    seq(|ds|, i requires 0 <= i < |ds| => DayName(Strip(ds[i])))
  }

  /** `_convert_cron_days_to_text`: a comma list is mapped element by
      element and joined with ", "; a single field is mapped as it is. */
  function ConvertDays(dayWeek: string): string {
    if ',' in dayWeek then Join(DayNames(Split(dayWeek, ',')), ", ") else DayName(dayWeek)
  }

  /** The shown schedule: the hour, ":", the minute padded to two digits,
      then the days or " daily". */
  function ScheduleText(hour: string, minute: string, dayWeek: string): string {
    hour + ":" + PadLeft(minute, 2, '0') + (if dayWeek != "*" then " on " + ConvertDays(dayWeek) else " daily")
  }

  /** The job a cron line yields after a marker, if it has six fields or
      more: the command is the rest of the fields joined by single spaces. */
  function EntryOf(name: string, line: string): (r: seq<Schedule>)
    ensures |r| <= 1
  {
    var parts := Words(line);
    if |parts| >= 6 then
      [Schedule(name, Join(parts[5..], " "), ScheduleText(parts[1], parts[0], parts[4]), "Active", "cron_job", line)]
    else []
  }

  /** The job name a marker line carries. */
  function MarkerName(line: string): string {
    Strip(Replace(line, Marker, ""))
  }

  /** One line of the scan of `_get_linux_cron_jobs`, on the stripped
      line and the name of a marker just read (if any): a marker sets the
      pending name; a non-empty line that is not a comment consumes it and
      may yield a job; anything else drops it. */
  function ParseStep(line: string, pending: Option<string>): (seq<Schedule>, Option<string>) {
    if StartsWith(line, Marker) then ([], Some(MarkerName(line)))
    else if pending.Some? && line != "" && !StartsWith(line, "#") then (EntryOf(pending.value, line), None)
    else ([], None)
  }

  /** The jobs the scan of `lines` yields from `pending`. */
  function ParseLines(lines: seq<string>, pending: Option<string>): seq<Schedule>
    decreases lines
  {
    if lines == [] then []
    else
      var step := ParseStep(Strip(lines[0]), pending);
      step.0 + ParseLines(lines[1..], step.1)
  }

  /** The pending name after the scan of `lines`. */
  function PendingAfter(lines: seq<string>, pending: Option<string>): Option<string>
    decreases lines
  {
    if lines == [] then pending
    else PendingAfter(lines[1..], ParseStep(Strip(lines[0]), pending).1)
  }

  /** The scan of the lines from `i` on is one step, then the rest. */
  lemma ParseFrom(lines: seq<string>, i: int, pending: Option<string>)
    requires 0 <= i < |lines|
    ensures var step := ParseStep(Strip(lines[i]), pending);
            ParseLines(lines[i..], pending) == step.0 + ParseLines(lines[i + 1..], step.1)
  {
    assert lines[i..][0] == lines[i];
    assert lines[i..][1..] == lines[i + 1..];
  }

  /** The jobs listed for the crontab text (none when reading it failed). */
  function CronJobs(crontab: Option<string>): seq<Schedule> {
    if crontab.None? then [] else ParseLines(Split(crontab.value, '\n'), None)
  }

  /** One line of the scan of `_get_linux_cron_jobs`. */
  method ScanLine(line: string, current: Option<string>) returns (jobs: seq<Schedule>, next: Option<string>)
    ensures (jobs, next) == ParseStep(line, current)
  {
    jobs, next := [], None;
    if StartsWith(line, Marker) {
      next := Some(MarkerName(line));
    } else if current.Some? && line != "" && !StartsWith(line, "#") {
      var parts := Words(line);
      if |parts| >= 6 {
        var text := ScheduleText(parts[1], parts[0], parts[4]);
        jobs := [Schedule(current.value, Join(parts[5..], " "), text, "Active", "cron_job", line)];
      }
    }
  }

  method GetLinuxCronJobs(crontab: Option<string>) returns (schedules: seq<Schedule>)
    ensures schedules == CronJobs(crontab)
  {
    if crontab.None? {
      return [];
    }
    var lines := Split(crontab.value, '\n');
    schedules := [];
    var current: Option<string> := None;
    var i := 0;
    assert lines[0..] == lines;
    while i < |lines|
      invariant 0 <= i <= |lines|
      invariant ParseLines(lines, None) == schedules + ParseLines(lines[i..], current)
    {
      ParseFrom(lines, i, current);
      var jobs, next := ScanLine(Strip(lines[i]), current);
      Assoc(schedules, jobs, ParseLines(lines[i + 1..], next));
      schedules, current := schedules + jobs, next;
      i := i + 1;
    }
    assert lines[i..] == [];
  }

  /** The marker line a deletion looks for. */
  function MarkerLine(name: string): string {
    Marker + " " + name
  }

  /** One line of the filter of `_delete_linux_cron_job`: what is kept of
      `line` and the flag for the next line. A marker line of the name goes
      and arms the filter; while armed (kept across other lines) the next
      line equal to `cronLine` after stripping goes too and disarms it. */
  function DeleteStep(line: string, name: string, cronLine: string, armed: bool): (seq<string>, bool) {
    if armed && Strip(line) == cronLine then ([], false)
    else if Strip(line) == MarkerLine(name) then ([], true)
    else ([line], armed)
  }

  /** The lines the filter keeps out of `lines`. */
  function DeleteLines(lines: seq<string>, name: string, cronLine: string, armed: bool): (r: seq<string>)
    ensures |r| <= |lines|
    decreases lines
  {
    if lines == [] then []
    else
      var step := DeleteStep(lines[0], name, cronLine, armed);
      step.0 + DeleteLines(lines[1..], name, cronLine, step.1)
  }

  /** The crontab written back (the current one is "" when reading it
      failed). */
  function DeletedCrontab(crontab: Option<string>, name: string, cronLine: string): string {
    Join(DeleteLines(Split(crontab.GetOr(""), '\n'), name, cronLine, false), "\n")
  }

  /** The filter from line `i` on: that line's step, then the rest. */
  lemma DeleteFrom(lines: seq<string>, i: int, name: string, cronLine: string, armed: bool)
    requires 0 <= i < |lines|
    ensures var step := DeleteStep(lines[i], name, cronLine, armed);
            DeleteLines(lines[i..], name, cronLine, armed) == step.0 + DeleteLines(lines[i + 1..], name, cronLine, step.1)
  {
    assert lines[i..][0] == lines[i] && lines[i..][1..] == lines[i + 1..];
  }

  /** One line of the filter. */
  method FilterLine(line: string, s: Schedule, skipNext: bool) returns (kept: seq<string>, next: bool)
    ensures (kept, next) == DeleteStep(line, s.name, s.cronLine, skipNext)
  {
    kept, next := [], skipNext;
    if skipNext && Strip(line) == s.cronLine {
      next := false;
    } else if Strip(line) == MarkerLine(s.name) {
      next := true;
    } else {
      kept := [line];
    }
  }

  method DeleteLinuxCronJob(crontab: Option<string>, s: Schedule) returns (newCrontab: string)
    ensures newCrontab == DeletedCrontab(crontab, s.name, s.cronLine)
  {
    var current := if crontab.Some? then crontab.value else "";
    var lines := Split(current, '\n');
    var newLines: seq<string> := [];
    var skipNext := false;
    var i := 0;
    assert lines[0..] == lines;
    while i < |lines|
      invariant 0 <= i <= |lines|
      invariant DeleteLines(lines, s.name, s.cronLine, false) == newLines + DeleteLines(lines[i..], s.name, s.cronLine, skipNext)
    {
      DeleteFrom(lines, i, s.name, s.cronLine, skipNext);
      var kept, next := FilterLine(lines[i], s, skipNext);
      Assoc(newLines, kept, DeleteLines(lines[i + 1..], s.name, s.cronLine, next));
      newLines, skipNext := newLines + kept, next;
      i := i + 1;
    }
    assert lines[i..] == [];
    assert current == crontab.GetOr("") && newLines == DeleteLines(lines, s.name, s.cronLine, false);
    newCrontab := Join(newLines, "\n");
  }

  // ---------------------------------------------------------------------
  // Windows.

  const TaskPrefix: string := "PyTrayLauncher_"
  const RunLabel: string := "Task To Run:"

  /** One listed Windows task. */
  datatype WindowsTask = WindowsTask(name: string, command: string, schedule: string, status: string, kind: string)

  /** Name, status and schedule of a CSV line of the launcher's tasks with
      eight fields or more, quotes stripped. */
  function TaskRow(line: string): Option<(string, string, string)> {
    if Strip(line) != "" && Contains(line, TaskPrefix) then
      var parts := Split(line, ',');
      if |parts| >= 8 then Some((TrimChar(parts[0], '"'), TrimChar(parts[2], '"'), TrimChar(parts[7], '"')))
      else None
    else None
  }

  /** The command in a task's detailed listing: the text after the first
      "Task To Run:" of the first line holding it, stripped; "" without one. */
  function TaskCommandOf(lines: seq<string>): string
    decreases lines
  {
    if lines == [] then ""
    else if Contains(lines[0], RunLabel) then Strip(AfterFirst(lines[0], RunLabel))
    else TaskCommandOf(lines[1..])
  }

  /** The task a listing line yields: one of the launcher's rows whose
      detailed listing is known. `details` maps a task name to its detailed
      listing; a task without one (the query failed) is skipped. */
  function RowTasks(line: string, details: map<string, string>): seq<WindowsTask> {
    var row := TaskRow(line);
    if row.Some? && row.value.0 in details then
      [WindowsTask(row.value.0, TaskCommandOf(Split(details[row.value.0], '\n')), row.value.2, row.value.1, "windows_task")]
    else []
  }

  /** The tasks of the listing lines after the header. */
  function WindowsRows(lines: seq<string>, details: map<string, string>): seq<WindowsTask>
    decreases lines
  {
    if lines == [] then []
    else RowTasks(lines[0], details) + WindowsRows(lines[1..], details)
  }

  /** `_get_windows_tasks` given the listing (None when the query failed). */
  function WindowsTasks(listing: Option<string>, details: map<string, string>): seq<WindowsTask> {
    if listing.None? then []
    else
      var lines := Split(listing.value, '\n');
      if |lines| > 1 then WindowsRows(lines[1..], details) else []
  }

  /** The scan for "Task To Run:", stopping at the first hit. */
  method TaskCommand(detail: string) returns (command: string)
    ensures command == TaskCommandOf(Split(detail, '\n'))
  {
    var lines := Split(detail, '\n');
    command := "";
    var i := 0;
    while i < |lines|
      invariant 0 <= i <= |lines|
      invariant TaskCommandOf(lines) == TaskCommandOf(lines[i..])
    {
      assert lines[i..][1..] == lines[i + 1..];
      if Contains(lines[i], RunLabel) {
        command := Strip(AfterFirst(lines[i], RunLabel));
        return;
      }
      i := i + 1;
    }
  }

  /** One listing line of `_get_windows_tasks`. */
  method TaskOfRow(line: string, details: map<string, string>) returns (tasks: seq<WindowsTask>)
    ensures tasks == RowTasks(line, details)
  {
    tasks := [];
    var row := TaskRow(line);
    if row.Some? && row.value.0 in details {
      var command := TaskCommand(details[row.value.0]);
      tasks := [WindowsTask(row.value.0, command, row.value.2, row.value.1, "windows_task")];
    }
  }

  method GetWindowsTasks(listing: Option<string>, details: map<string, string>) returns (schedules: seq<WindowsTask>)
    ensures schedules == WindowsTasks(listing, details)
  {
    if listing.None? {
      return [];
    }
    var lines := Split(listing.value, '\n');
    schedules := [];
    if |lines| > 1 {
      var rows := lines[1..];
      var i := 0;
      assert rows[0..] == rows;
      while i < |rows|
        invariant 0 <= i <= |rows|
        invariant WindowsRows(rows, details) == schedules + WindowsRows(rows[i..], details)
      {
        assert rows[i..][0] == rows[i] && rows[i..][1..] == rows[i + 1..];
        var tasks := TaskOfRow(rows[i], details);
        Assoc(schedules, tasks, WindowsRows(rows[i + 1..], details));
        schedules := schedules + tasks;
        i := i + 1;
      }
      assert rows[i..] == [];
    }
  }

  // ---------------------------------------------------------------------
  // Properties of the scan.

  /** The jobs of a list of lines are those of its parts, the second part
      scanned with the pending name the first leaves. */
  lemma {:induction false} ParseConcat(a: seq<string>, b: seq<string>, pending: Option<string>)
    ensures ParseLines(a + b, pending) == ParseLines(a, pending) + ParseLines(b, PendingAfter(a, pending))
    decreases a
  {
    if a == [] {
      assert a + b == b;
    } else {
      assert (a + b)[0] == a[0] && (a + b)[1..] == a[1..] + b;
      var step := ParseStep(Strip(a[0]), pending);
      ParseConcat(a[1..], b, step.1);
      Assoc(step.0, ParseLines(a[1..], step.1), ParseLines(b, PendingAfter(a[1..], step.1)));
    }
  }

  /** `j` is the job the stripped cron line `line` yields: "Active", of
      kind "cron_job", the line has six fields or more, and the command is
      its fields from the sixth on joined by single spaces. */
  predicate IsJobOf(j: Schedule, line: string) {
    j.status == "Active" && j.kind == "cron_job" && j.cronLine == line
    && |Words(line)| >= 6 && j.command == Join(Words(line)[5..], " ")
  }

  lemma StepShape(line: string, pending: Option<string>)
    ensures forall j :: j in ParseStep(line, pending).0 ==> IsJobOf(j, line)
  {
  }

  /** Every job comes from one stripped line of the text. */
  lemma {:induction false} ParsedJobShape(lines: seq<string>, pending: Option<string>)
    ensures forall j :: j in ParseLines(lines, pending) ==>
              exists i :: 0 <= i < |lines| && IsJobOf(j, Strip(lines[i]))
    decreases lines
  {
    if lines != [] {
      var step := ParseStep(Strip(lines[0]), pending);
      StepShape(Strip(lines[0]), pending);
      ParsedJobShape(lines[1..], step.1);
      forall j | j in ParseLines(lines, pending)
        ensures exists i :: 0 <= i < |lines| && IsJobOf(j, Strip(lines[i]))
      {
        if j in step.0 {
          assert IsJobOf(j, Strip(lines[0]));
        } else {
          assert j in ParseLines(lines[1..], step.1);
          var k :| 0 <= k < |lines[1..]| && IsJobOf(j, Strip(lines[1..][k]));
          assert lines[1..][k] == lines[k + 1];
        }
      }
    }
  }

  /** A marker line directly followed by a cron line yields the job named
      by the marker, and the scan goes on with nothing pending. */
  lemma MarkerThenEntry(m: string, e: string, rest: seq<string>, pending: Option<string>)
    requires StartsWith(Strip(m), Marker)
    requires Strip(e) != "" && !StartsWith(Strip(e), "#")
    ensures ParseLines([m, e] + rest, pending) == EntryOf(MarkerName(Strip(m)), Strip(e)) + ParseLines(rest, None)
  {
    assert ([m, e] + rest)[1..] == [e] + rest;
    assert ([e] + rest)[1..] == rest;
    MarkerIsComment(Strip(e));
  }

  lemma MarkerIsComment(x: string)
    ensures StartsWith(x, Marker) ==> StartsWith(x, "#")
  {
    if StartsWith(x, Marker) {
      assert x[..1] == x[..|Marker|][..1];
    }
  }

  /** A blank line, or a comment other than a marker, drops the pending
      name. */
  lemma InterruptionDropsPending(l: string, rest: seq<string>, name: string)
    requires Strip(l) == "" || (StartsWith(Strip(l), "#") && !StartsWith(Strip(l), Marker))
    ensures ParseLines([l] + rest, Some(name)) == ParseLines(rest, None)
  {
    assert ([l] + rest)[1..] == rest;
  }

  /** Only a line directly after a marker can yield a job. */
  lemma NothingWithoutMarker(lines: seq<string>)
    requires forall i :: 0 <= i < |lines| ==> !StartsWith(Strip(lines[i]), Marker)
    ensures ParseLines(lines, None) == []
  {
    NothingWithoutMarkerFrom(lines);
  }

  lemma {:induction false} NothingWithoutMarkerFrom(lines: seq<string>)
    requires forall i :: 0 <= i < |lines| ==> !StartsWith(Strip(lines[i]), Marker)
    ensures ParseLines(lines, None) == []
    decreases lines
  {
    if lines != [] {
      assert forall i :: 0 <= i < |lines[1..]| ==> lines[1..][i] == lines[i + 1];
      NothingWithoutMarkerFrom(lines[1..]);
    }
  }

  // ---------------------------------------------------------------------
  // Properties of the day names and the schedule text.

  lemma DayNumbers()
    ensures DayName("0") == "Sunday" && DayName("7") == "Sunday"
    ensures DayName("1") == "Monday" && DayName("2") == "Tuesday" && DayName("3") == "Wednesday"
    ensures DayName("4") == "Thursday" && DayName("5") == "Friday" && DayName("6") == "Saturday"
  {
  }

  /** A field that is not a day number is shown as it is. */
  lemma UnknownDayPassesThrough(d: string)
    requires d !in ["0", "1", "2", "3", "4", "5", "6", "7"]
    ensures DayName(d) == d
  {
  }

  /** A list of two fields or more is shown field by field, joined by ", ". */
  lemma ConvertDayList(ds: seq<string>)
    requires |ds| >= 2 && forall i :: 0 <= i < |ds| ==> ',' !in ds[i]
    ensures ConvertDays(Join(ds, ",")) == Join(DayNames(ds), ", ")
  {
    SplitJoin(ds, ',');
    assert Join(ds, ",") == ds[0] + "," + Join(ds[1..], ",");
    assert (ds[0] + "," + Join(ds[1..], ","))[|ds[0]|] == ',';
  }

  /** A single field is shown by its name. */
  lemma ConvertOneDay(d: string)
    requires ',' !in d
    ensures ConvertDays(d) == DayName(d)
  {
  }

  lemma DailyText(hour: string, minute: string)
    ensures ScheduleText(hour, minute, "*") == hour + ":" + PadLeft(minute, 2, '0') + " daily"
  {
  }

  // ---------------------------------------------------------------------
  // Properties of the deletion.

  /** The flag the filter holds after `lines`. */
  function ArmedAfter(lines: seq<string>, name: string, cronLine: string, armed: bool): bool
    decreases lines
  {
    if lines == [] then armed
    else ArmedAfter(lines[1..], name, cronLine, DeleteStep(lines[0], name, cronLine, armed).1)
  }

  /** The lines the filter keeps of `a + b`: those of `a`, then those of
      `b` from the flag `a` leaves. */
  lemma {:induction false} DeleteConcat(a: seq<string>, b: seq<string>, name: string, cronLine: string, armed: bool)
    ensures DeleteLines(a + b, name, cronLine, armed)
            == DeleteLines(a, name, cronLine, armed) + DeleteLines(b, name, cronLine, ArmedAfter(a, name, cronLine, armed))
    decreases a
  {
    if a == [] {
      assert a + b == b;
    } else {
      assert (a + b)[0] == a[0] && (a + b)[1..] == a[1..] + b;
      var step := DeleteStep(a[0], name, cronLine, armed);
      DeleteConcat(a[1..], b, name, cronLine, step.1);
      Assoc(step.0, DeleteLines(a[1..], name, cronLine, step.1),
            DeleteLines(b, name, cronLine, ArmedAfter(a[1..], name, cronLine, step.1)));
    }
  }

  /** Without a marker of the name and unarmed, every line is kept. */
  lemma {:induction false} DeleteKeepsAll(lines: seq<string>, name: string, cronLine: string)
    requires forall i :: 0 <= i < |lines| ==> Strip(lines[i]) != MarkerLine(name)
    ensures DeleteLines(lines, name, cronLine, false) == lines
    ensures !ArmedAfter(lines, name, cronLine, false)
    decreases lines
  {
    if lines != [] {
      assert forall i :: 0 <= i < |lines[1..]| ==> lines[1..][i] == lines[i + 1];
      DeleteKeepsAll(lines[1..], name, cronLine);
      assert [lines[0]] + lines[1..] == lines;
    }
  }

  /** No marker line of the name survives, and the kept lines are lines of
      the input in their order. */
  lemma {:induction false} DeleteRemovesMarkers(lines: seq<string>, name: string, cronLine: string, armed: bool)
    ensures forall i :: 0 <= i < |DeleteLines(lines, name, cronLine, armed)| ==>
              Strip(DeleteLines(lines, name, cronLine, armed)[i]) != MarkerLine(name)
    ensures IsSubseq(DeleteLines(lines, name, cronLine, armed), lines)
    decreases lines
  {
    if lines != [] {
      var step := DeleteStep(lines[0], name, cronLine, armed);
      var rest := DeleteLines(lines[1..], name, cronLine, step.1);
      var r := DeleteLines(lines, name, cronLine, armed);
      assert r == step.0 + rest;
      DeleteRemovesMarkers(lines[1..], name, cronLine, step.1);
      if step.0 == [] {
        assert r == rest;
        SubseqSkip(r, lines);
      } else {
        assert step.0 == [lines[0]] && Strip(lines[0]) != MarkerLine(name);
        assert r[0] == lines[0] && r[1..] == rest;
        forall i | 0 <= i < |r|
          ensures Strip(r[i]) != MarkerLine(name)
        {
          if i > 0 {
            assert r[i] == rest[i - 1];
          }
        }
      }
    }
  }

  /** A subsequence of the tail is a subsequence of the whole. */
  lemma SubseqSkip(a: seq<string>, b: seq<string>)
    requires b != [] && IsSubseq(a, b[1..])
    ensures IsSubseq(a, b)
  {
  }

  /** Every listed task comes from a listing line holding the task prefix
      and at least eight comma fields: its name, status and schedule are
      fields 0, 2 and 7 without quotes, and its details were found. */
  lemma {:induction false} WindowsRowsShape(lines: seq<string>, details: map<string, string>)
    ensures forall t :: t in WindowsRows(lines, details) ==>
              t.kind == "windows_task" && t.name in details
              && exists i :: 0 <= i < |lines| && IsTaskLine(lines[i], t)
    decreases lines
  {
    if lines != [] {
      WindowsRowsShape(lines[1..], details);
      forall t | t in WindowsRows(lines, details)
        ensures t.kind == "windows_task" && t.name in details
                && exists i :: 0 <= i < |lines| && IsTaskLine(lines[i], t)
      {
        if t !in WindowsRows(lines[1..], details) {
          assert IsTaskLine(lines[0], t);
        } else {
          var i :| 0 <= i < |lines[1..]| && IsTaskLine(lines[1..][i], t);
          assert lines[1..][i] == lines[i + 1];
        }
      }
    }
  }

  /** Conversely, every listing line holding the task prefix and at least
      eight comma fields, whose task has details, is listed with its name,
      the command from its details, its schedule and its status. */
  lemma WindowsRowsComplete(lines: seq<string>, details: map<string, string>, i: int)
    requires 0 <= i < |lines|
    requires Strip(lines[i]) != "" && Contains(lines[i], TaskPrefix) && |Split(lines[i], ',')| >= 8
    requires TrimChar(Split(lines[i], ',')[0], '"') in details
    ensures var parts := Split(lines[i], ',');
            var name := TrimChar(parts[0], '"');
            WindowsTask(name, TaskCommandOf(Split(details[name], '\n')), TrimChar(parts[7], '"'), TrimChar(parts[2], '"'), "windows_task")
              in WindowsRows(lines, details)
  {
    var parts := Split(lines[i], ',');
    var name := TrimChar(parts[0], '"');
    var t := WindowsTask(name, TaskCommandOf(Split(details[name], '\n')), TrimChar(parts[7], '"'), TrimChar(parts[2], '"'), "windows_task");
    assert RowTasks(lines[i], details) == [t];
    RowsInclude(lines, details, i, t);
  }

  /** The tasks of one line are among those of the listing. */
  lemma {:induction false} RowsInclude(lines: seq<string>, details: map<string, string>, i: int, t: WindowsTask)
    requires 0 <= i < |lines| && t in RowTasks(lines[i], details)
    ensures t in WindowsRows(lines, details)
    decreases lines
  {
    if i > 0 {
      assert lines[1..][i - 1] == lines[i];
      RowsInclude(lines[1..], details, i - 1, t);
    }
  }

  /** The line a listed task was read from. */
  predicate IsTaskLine(line: string, t: WindowsTask) {
    var parts := Split(line, ',');
    Strip(line) != "" && Contains(line, TaskPrefix) && |parts| >= 8
    && t.name == TrimChar(parts[0], '"') && t.status == TrimChar(parts[2], '"') && t.schedule == TrimChar(parts[7], '"')
  }

  /** The header line is never listed: a listing is its header, a line
      break and the rows, and only the rows count. */
  lemma HeaderSkipped(header: string, rows: string, details: map<string, string>)
    requires '\n' !in header
    ensures WindowsTasks(Some(header + "\n" + rows), details) == WindowsRows(Split(rows, '\n'), details)
  {
    SplitAround(header, rows, '\n');
    SplitNoSep(header, '\n');
    assert header + "\n" + rows == header + ['\n'] + rows;
    assert (Split(header, '\n') + Split(rows, '\n'))[1..] == Split(rows, '\n');
  }

  /** A row without the task prefix lists nothing. */
  lemma OtherTasksIgnored(line: string, details: map<string, string>)
    requires !Contains(line, TaskPrefix)
    ensures WindowsRows([line], details) == []
  {
  }
}
