/** Creating a schedule for one of the launcher's commands: the dialog's
    checks on what was selected, then either a `schtasks /create` command
    line (Windows) or a cron line with a marker comment appended to the root
    crontab (otherwise). The current crontab is a parameter; running
    `schtasks`, `crontab` and `pkexec` is not part of this model. */
module ScheduleCreator {
  import opened Wrappers
  import opened Text
  import opened JsonDoc
  import opened HistoryRules
  import opened TrayCore

  /** The day check boxes, in the dialog's order. */
  const WeekDays: seq<string> := ["Monday", "Tuesday", "Wednesday", "Thursday", "Friday", "Saturday", "Sunday"]

  /** `self.command_data`: display text to record; a later record with the
      same text replaces an earlier one. */
  function CommandData(records: seq<CommandRecord>): map<string, CommandRecord>
    decreases |records|
  {
    if records == [] then map[]
    else CommandData(records[..|records| - 1])[DisplayText(records[|records| - 1]) := records[|records| - 1]]
  }

  /** The loop of `show_dialog` that fills the combo box and the map. */
  method LoadCommandData(records: seq<CommandRecord>) returns (items: seq<string>, data: map<string, CommandRecord>)
    ensures |items| == |records| && forall i :: 0 <= i < |records| ==> items[i] == DisplayText(records[i])
    ensures data == CommandData(records)
  {
    items := [];
    data := map[];
    var i := 0;
    while i < |records|
      invariant 0 <= i <= |records|
      invariant |items| == i && forall k :: 0 <= k < i ==> items[k] == DisplayText(records[k])
      invariant data == CommandData(records[..i])
    {
      assert records[..i + 1][..i] == records[..i];
      var text := DisplayText(records[i]);
      items := items + [text];
      data := data[text := records[i]];
      i := i + 1;
    }
    assert records[..i] == records;
  }

  /** Every shown text selects the last record that shows it. */
  lemma {:induction false} CommandDataLast(records: seq<CommandRecord>, i: int)
    requires 0 <= i < |records|
    requires forall k :: i < k < |records| ==> DisplayText(records[k]) != DisplayText(records[i])
    ensures DisplayText(records[i]) in CommandData(records)
    ensures CommandData(records)[DisplayText(records[i])] == records[i]
    decreases |records|
  {
    if i < |records| - 1 {
      var init := records[..|records| - 1];
      assert forall k :: i < k < |init| ==> init[k] == records[k];
      CommandDataLast(init, i);
    }
  }

  /** Only a shown text selects anything. */
  lemma {:induction false} CommandDataKeys(records: seq<CommandRecord>, text: string)
    ensures text in CommandData(records) <==> exists i :: 0 <= i < |records| && DisplayText(records[i]) == text
    decreases |records|
  {
    if records != [] {
      var init := records[..|records| - 1];
      CommandDataKeys(init, text);
      if text in CommandData(init) {
        var i :| 0 <= i < |init| && DisplayText(init[i]) == text;
        assert init[i] == records[i];
      }
      if exists i :: 0 <= i < |records| && DisplayText(records[i]) == text {
        var i :| 0 <= i < |records| && DisplayText(records[i]) == text;
        if i < |init| {
          assert init[i] == records[i];
        }
      }
    }
  }

  /** The checked days, in the dialog's order. */
  function Selected(checked: seq<bool>, days: seq<string>): (r: seq<string>)
    requires |checked| == |days|
    ensures |r| <= |days|
    decreases |days|
  {
    if days == [] then []
    else (if checked[0] then [days[0]] else []) + Selected(checked[1..], days[1..])
  }

  /** The loop of `on_create` that collects the checked days; `days` are
      the check boxes' days in their order (`WeekDays` in the dialog). */
  method SelectedDays(days: seq<string>, checked: seq<bool>) returns (selected: seq<string>)
    requires |checked| == |days|
    ensures selected == Selected(checked, days)
  {
    selected := [];
    var i := 0;
    assert checked[0..] == checked && days[0..] == days;
    while i < |days|
      invariant 0 <= i <= |days|
      invariant Selected(checked, days) == selected + Selected(checked[i..], days[i..])
    {
      SelectedFrom(checked, days, i);
      ghost var before := selected;
      if checked[i] {
        selected := selected + [days[i]];
      }
      assert before + ((if checked[i] then [days[i]] else []) + Selected(checked[i + 1..], days[i + 1..]))
             == selected + Selected(checked[i + 1..], days[i + 1..]);
      i := i + 1;
    }
  }

  lemma SelectedFrom(checked: seq<bool>, days: seq<string>, i: int)
    requires |checked| == |days| && 0 <= i < |days|
    ensures Selected(checked[i..], days[i..])
            == (if checked[i] then [days[i]] else []) + Selected(checked[i + 1..], days[i + 1..])
  {
    assert checked[i..][1..] == checked[i + 1..] && days[i..][1..] == days[i + 1..];
    assert checked[i..][0] == checked[i] && days[i..][0] == days[i];
  }

  /** A day is selected exactly when its box is checked; the selection is in
      the dialog's order. */
  lemma {:induction false} SelectedMeaning(checked: seq<bool>, days: seq<string>)
    requires |checked| == |days|
    ensures forall d :: d in Selected(checked, days) <==> exists i :: 0 <= i < |days| && checked[i] && days[i] == d
    ensures IsSubseq(Selected(checked, days), days)
    ensures Selected(checked, days) == [] <==> forall i :: 0 <= i < |days| ==> !checked[i]
    decreases |days|
  {
    if days != [] {
      SelectedMeaning(checked[1..], days[1..]);
      forall d
        ensures d in Selected(checked, days) <==> exists i :: 0 <= i < |days| && checked[i] && days[i] == d
      {
        if d in Selected(checked[1..], days[1..]) {
          var i :| 0 <= i < |days[1..]| && checked[1..][i] && days[1..][i] == d;
          assert checked[i + 1] && days[i + 1] == d;
        }
        if exists i :: 0 <= i < |days| && checked[i] && days[i] == d {
          var i :| 0 <= i < |days| && checked[i] && days[i] == d;
          if i > 0 {
            assert checked[1..][i - 1] && days[1..][i - 1] == d;
          }
        }
      }
      var r := Selected(checked, days);
      if checked[0] {
        assert r[0] == days[0] && r[1..] == Selected(checked[1..], days[1..]);
      } else {
        assert r == Selected(checked[1..], days[1..]);
        if r != [] {
          assert IsSubseq(r, days[1..]);
        }
      }
      if Selected(checked, days) == [] {
        forall i | 0 <= i < |days|
          ensures !checked[i]
        {
          if i > 0 {
            assert checked[i] == checked[1..][i - 1];
          }
        }
      }
    }
  }

  /** What `on_create` hands to `create_schedule`. */
  datatype Request = Request(record: CommandRecord, hour: nat, minute: nat, days: seq<string>)

  const NoCommandMessage: string := "Please select a command."
  const NoDayMessage: string := "Please select at least one day."

  /** `on_create`: the selection must name a loaded command and at least one
      day must be checked. */
  function OnCreate(selectedText: string, data: map<string, CommandRecord>, hour: nat, minute: nat, checked: seq<bool>): Result<Request, string>
    requires |checked| == |WeekDays|
  {
    if selectedText == "" || selectedText !in data then Failure(NoCommandMessage)
    else
      var days := Selected(checked, WeekDays);
      if days == [] then Failure(NoDayMessage)
      else Success(Request(data[selectedText], hour, minute, days))
  }

  /** The three outcomes of `on_create`, each in both directions. */
  lemma OnCreateOutcome(selectedText: string, data: map<string, CommandRecord>, hour: nat, minute: nat, checked: seq<bool>)
    requires |checked| == |WeekDays|
    ensures var r := OnCreate(selectedText, data, hour, minute, checked);
            (r == Failure(NoCommandMessage) <==> selectedText == "" || selectedText !in data)
            && (r == Failure(NoDayMessage) <==>
                  selectedText != "" && selectedText in data && forall i :: 0 <= i < 7 ==> !checked[i])
            && (r.Success? ==>
                  r.value.record == data[selectedText] && r.value.hour == hour && r.value.minute == minute
                  && r.value.days != [] && IsSubseq(r.value.days, WeekDays)
                  && forall d :: d in r.value.days <==> exists i :: 0 <= i < 7 && checked[i] && WeekDays[i] == d)
  {
    SelectedMeaning(checked, WeekDays);
  }

  // ---------------------------------------------------------------------
  // Windows.

  function WindowsDayCode(day: string): string
    requires day in WeekDays
  {
    match day
    case "Monday" => "MON"
    case "Tuesday" => "TUE"
    case "Wednesday" => "WED"
    case "Thursday" => "THU"
    case "Friday" => "FRI"
    case "Saturday" => "SAT"
    case "Sunday" => "SUN"
  }

  predicate AllWeekDays(days: seq<string>) {
    forall i :: 0 <= i < |days| ==> days[i] in WeekDays
  }

  function WindowsDays(days: seq<string>): string
    requires AllWeekDays(days)
  {
    Join(seq(|days|, i requires 0 <= i < |days| => WindowsDayCode(days[i])), ",")
  }

  /** The `/d` field reads back as one three-letter code per selected day,
      in the order the days were selected. */
  lemma WindowsDaysSplit(days: seq<string>)
    requires AllWeekDays(days) && days != []
    ensures var parts := Split(WindowsDays(days), ',');
            |parts| == |days|
            && forall i :: 0 <= i < |days| ==> parts[i] == WindowsDayCode(days[i]) && |parts[i]| == 3
  {
    var codes := seq(|days|, i requires 0 <= i < |days| => WindowsDayCode(days[i]));
    assert forall i :: 0 <= i < |codes| ==> ',' !in codes[i] && |codes[i]| == 3;
    SplitJoin(codes, ',');
  }

  /** The task name: the name with spaces turned into underscores. */
  function WindowsTaskName(name: string): string {
    "PyTrayLauncher_" + Replace(name, " ", "_")
  }

  /** `f"{hour:02d}:{minute:02d}"`. */
  function TimeString(hour: nat, minute: nat): string {
    Pad2(hour) + ":" + Pad2(minute)
  }

  /** The `schtasks` command line; None where building or running it raises
      because the command is not a string (the creation then fails). */
  function SchtasksArgs(r: CommandRecord, hour: nat, minute: nat, days: seq<string>): (args: Option<seq<string>>)
    requires AllWeekDays(days)
    ensures args.Some? <==> r.command.JStr?
  {
    if r.command.JStr? then
      Some(["schtasks", "/create", "/tn", WindowsTaskName(r.name), "/tr", r.command.s, "/sc", "weekly",
            "/d", WindowsDays(days), "/st", TimeString(hour, minute), "/f"])
    else None
  }

  /** Two digits for a number below 100. */
  lemma Pad2Digits(n: nat)
    requires n < 100
    ensures Pad2(n) == [DigitChar(n / 10), DigitChar(n % 10)]
  {
    if n < 10 {
      assert NatToString(n) == [DigitChar(n)];
      assert Repeat('0', 1) == ['0'];
      assert n / 10 == 0 && n % 10 == n;
      assert DigitChar(0) == '0';
    } else {
      assert NatToString(n / 10) == [DigitChar(n / 10)];
      assert NatToString(n) == [DigitChar(n / 10)] + [DigitChar(n % 10)];
    }
  }

  /** A clock time is written as five characters "HH:MM" whose digits are
      those of the hour and the minute. */
  lemma TimeStringDigits(hour: nat, minute: nat)
    requires hour < 24 && minute < 60
    ensures TimeString(hour, minute)
            == [DigitChar(hour / 10), DigitChar(hour % 10), ':', DigitChar(minute / 10), DigitChar(minute % 10)]
  {
    Pad2Digits(hour);
    Pad2Digits(minute);
    ClockShape([DigitChar(hour / 10), DigitChar(hour % 10)], [DigitChar(minute / 10), DigitChar(minute % 10)]);
  }

  lemma ClockShape(a: string, b: string)
    requires |a| == 2 && |b| == 2
    ensures a + ":" + b == [a[0], a[1], ':', b[0], b[1]]
  {
  }

  /** The task name holds no space, and only spaces of the name change. */
  lemma {:induction false} ReplaceSpaces(name: string)
    ensures ' ' !in Replace(name, " ", "_")
    ensures |Replace(name, " ", "_")| == |name|
    ensures forall i :: 0 <= i < |name| && name[i] != ' ' ==> Replace(name, " ", "_")[i] == name[i]
    decreases |name|
  {
    if name != [] {
      ReplaceSpaces(name[1..]);
      if StartsWith(name, " ") {
        assert name[0] == ' ';
      } else {
        assert name[..1] != " " && name[0] != ' ';
      }
    }
  }

  lemma WindowsTaskNameShape(name: string)
    ensures StartsWith(WindowsTaskName(name), "PyTrayLauncher_")
    ensures ' ' !in WindowsTaskName(name)
    ensures |WindowsTaskName(name)| == |"PyTrayLauncher_"| + |name|
  {
    ReplaceSpaces(name);
    var r := Replace(name, " ", "_");
    var t := "PyTrayLauncher_" + r;
    assert t[..|"PyTrayLauncher_"|] == "PyTrayLauncher_";
    forall k | 0 <= k < |t|
      ensures t[k] != ' '
    {
      if k >= 15 {
        assert t[k] == r[k - 15];
      }
    }
  }

  // ---------------------------------------------------------------------
  // Cron.

  function CronDayCode(day: string): (c: string)
    requires day in WeekDays
    ensures |c| == 1 && IsDigit(c[0])
  {
    match day
    case "Sunday" => "0"
    case "Monday" => "1"
    case "Tuesday" => "2"
    case "Wednesday" => "3"
    case "Thursday" => "4"
    case "Friday" => "5"
    case "Saturday" => "6"
  }

  function CronDayCodes(days: seq<string>): (r: seq<string>)
    requires AllWeekDays(days)
    ensures |r| == |days| && forall i :: 0 <= i < |days| ==> r[i] == CronDayCode(days[i])
  {
    seq(|days|, i requires 0 <= i < |days| => CronDayCode(days[i]))
  }

  /** The day-of-week field: the cron numbers joined by ",". */
  function CronDays(days: seq<string>): string
    requires AllWeekDays(days)
  {
    Join(CronDayCodes(days), ",")
  }

  /** `f"{minute} {hour} * * {days_string} {command}"`. */
  function CronEntry(minute: nat, hour: nat, days: seq<string>, command: string): string
    requires AllWeekDays(days)
  {
    NatToString(minute) + " " + NatToString(hour) + " * * " + CronDays(days) + " " + command
  }

  /** The marker comment written above the cron line. */
  function Comment(name: string): string {
    "# py-tray-command-launcher: " + name
  }

  /** The crontab installed: the current one (empty when it could not be
      read) without trailing whitespace, then the comment and the line. */
  function NewCrontab(current: Option<string>, name: string, entry: string): string {
    RStrip(current.GetOr("")) + "\n" + Comment(name) + "\n" + entry + "\n"
  }

  /** `_create_linux_cron` up to the installation, for a string command. */
  function CreateLinuxCron(current: Option<string>, r: CommandRecord, hour: nat, minute: nat, days: seq<string>): string
    requires AllWeekDays(days) && r.command.JStr?
  {
    NewCrontab(current, r.name, CronEntry(minute, hour, days, r.command.s))
  }

  /** The day field is digits separated by commas: no whitespace and, for
      more than one day, a comma. */
  lemma {:induction false} CronDaysShape(days: seq<string>)
    requires AllWeekDays(days) && days != []
    ensures CronDays(days) != [] && NoSpace(CronDays(days))
    ensures forall i :: 0 <= i < |CronDays(days)| ==> IsDigit(CronDays(days)[i]) || CronDays(days)[i] == ','
    decreases |days|
  {
    var codes := CronDayCodes(days);
    if |days| > 1 {
      assert forall i :: 0 <= i < |days[1..]| ==> days[1..][i] == days[i + 1];
      CronDaysShape(days[1..]);
      assert CronDayCodes(days[1..]) == codes[1..];
      assert CronDays(days) == codes[0] + "," + CronDays(days[1..]);
    }
  }

  lemma FiveFront<T>(a: T, b: T, c: T, d: T, e: T, rest: seq<T>)
    ensures [a] + ([b] + ([c] + ([d] + ([e] + rest)))) == [a, b, c, d, e] + rest
  {
  }

  /** A word and a space in front of a text add that word to its words. */
  lemma WordThenSpace(w: string, rest: string)
    requires w != [] && NoSpace(w)
    ensures Words(w + " " + rest) == [w] + Words(rest)
  {
    assert w + " " + rest == w + ([' '] + rest);
    WordsCons(w, [' '] + rest);
    WordsSpace(' ', rest);
  }

  /** The fields of the cron line: minute, hour, two stars, the days, then
      the words of the command. */
  lemma CronEntryWords(minute: nat, hour: nat, days: seq<string>, command: string)
    requires AllWeekDays(days) && days != []
    ensures Words(CronEntry(minute, hour, days, command))
            == [NatToString(minute), NatToString(hour), "*", "*", CronDays(days)] + Words(command)
  {
    var m := NatToString(minute);
    var h := NatToString(hour);
    var d := CronDays(days);
    CronDaysShape(days);
    DigitsNoSpace(m);
    DigitsNoSpace(h);
    var r4 := d + " " + command;
    var r3 := "*" + " " + r4;
    var r2 := "*" + " " + r3;
    var r1 := h + " " + r2;
    StarsSpelled(m, h, d, command);
    var wc := Words(command);
    WordThenSpace(d, command);
    WordThenSpace("*", r4);
    WordThenSpace("*", r3);
    WordThenSpace(h, r2);
    WordThenSpace(m, r1);
    assert Words(m + " " + r1) == [m] + ([h] + (["*"] + (["*"] + ([d] + wc))));
    FiveFront(m, h, "*", "*", d, wc);
  }

  /** The cron line regrouped word by word. */
  lemma StarsSpelled(m: string, h: string, d: string, command: string)
    ensures m + " " + h + " * * " + d + " " + command == m + " " + (h + " " + ("*" + " " + ("*" + " " + (d + " " + command))))
  {
    assert " * * " == " " + "*" + " " + "*" + " ";
  }
}
