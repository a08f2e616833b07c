/** The schedule creator and the schedule viewer work on the same crontab
    text: what one writes, the other lists, and deleting the listed job
    takes the written lines out again. */
module CronRoundTrip {
  import opened Wrappers
  import opened Text
  import opened ScheduleViewer
  import opened ScheduleCreator

  /** A name that survives the marker comment: not empty, no surrounding
      whitespace, on one line, and not holding the marker text itself. */
  predicate PlainName(name: string) {
    name != [] && !IsSpace(name[0]) && !IsSpace(name[|name| - 1])
    && '\n' !in name && !Contains(name, Marker)
  }

  /** A command that survives the cron line: on one line and not ending in
      whitespace. */
  predicate PlainCommand(command: string) {
    command != [] && !IsSpace(command[|command| - 1]) && '\n' !in command
  }

  /** The lines of the new crontab. */
  lemma CrontabLines(current: Option<string>, name: string, entry: string)
    requires '\n' !in name && '\n' !in entry
    ensures Split(NewCrontab(current, name, entry), '\n')
            == Split(RStrip(current.GetOr("")), '\n') + [Comment(name), entry, ""]
  {
    CommentOneLine(name);
    ThreeLines(RStrip(current.GetOr("")), Comment(name), entry);
  }

  lemma CommentOneLine(name: string)
    requires '\n' !in name
    ensures '\n' !in Comment(name)
  {
    assert '\n' !in "# py-tray-command-launcher: ";
  }

  /** A text, then two lines each ended by a line break, splits into the
      text's lines, the two lines and a last empty part. */
  lemma ThreeLines(a: string, c: string, e: string)
    requires '\n' !in c && '\n' !in e
    ensures Split(a + "\n" + c + "\n" + e + "\n", '\n') == Split(a, '\n') + [c, e, ""]
  {
    assert a + "\n" + c + "\n" + e + "\n" == a + ['\n'] + (c + ['\n'] + (e + ['\n'] + ""));
    SplitAround(a, c + ['\n'] + (e + ['\n'] + ""), '\n');
    SplitAround(c, e + ['\n'] + "", '\n');
    SplitAround(e, "", '\n');
    SplitNoSep(c, '\n');
    SplitNoSep(e, '\n');
    assert Split("", '\n') == [""];
  }

  /** The comment is a marker line naming the job, and is what a deletion
      of that name looks for. */
  lemma CommentIsMarker(name: string)
    requires PlainName(name)
    ensures Strip(Comment(name)) == Comment(name)
    ensures StartsWith(Comment(name), Marker)
    ensures MarkerName(Comment(name)) == name
    ensures Comment(name) == MarkerLine(name)
  {
    CommentSpelled(name);
    assert Marker[0] == '#';
    MarkedLine(Marker, name);
  }

  lemma CommentSpelled(name: string)
    ensures Comment(name) == Marker + (" " + name) == MarkerLine(name)
  {
    assert "# py-tray-command-launcher: " == Marker + " ";
  }

  /** A prefix `p`, a space and a name `p` does not occur in: stripping
      keeps the line, and taking `p` out and stripping gives the name. */
  lemma MarkedLine(p: string, name: string)
    requires p != [] && !IsSpace(p[0]) && p[0] != ' '
    requires name != [] && !IsSpace(name[0]) && !IsSpace(name[|name| - 1]) && !Contains(name, p)
    ensures Strip(p + (" " + name)) == p + (" " + name)
    ensures StartsWith(p + (" " + name), p)
    ensures Strip(Replace(p + (" " + name), p, "")) == name
  {
    var b := " " + name;
    var c := p + b;
    assert c[0] == p[0] && c[|c| - 1] == name[|name| - 1];
    StripKeeps(c);
    assert c[..|p|] == p;
    assert b[0] == ' ' && b[1..] == name;
    assert !StartsWith(b, p) by {
      if |p| <= |b| {
        assert b[..|p|][0] == b[0];
      }
    }
    ReplaceFront(b, p, "");
    ReplaceAbsent(b, p, "");
    assert "" + b == b;
    assert Strip(b) == Strip(name);
    StripKeeps(name);
  }

  /** The cron line is already stripped and is not a comment. */
  lemma EntryIsPlain(minute: nat, hour: nat, days: seq<string>, command: string)
    requires AllWeekDays(days) && PlainCommand(command)
    ensures var e := CronEntry(minute, hour, days, command);
            Strip(e) == e && e != "" && !StartsWith(e, "#") && '\n' !in e
  {
    var e := CronEntry(minute, hour, days, command);
    var m := NatToString(minute);
    var rest := " " + NatToString(hour) + " * * " + CronDays(days) + " ";
    assert e == m + rest + command;
    assert e[0] == m[0];
    assert e[|e| - 1] == command[|command| - 1];
    StripKeeps(e);
    assert e[..1] != "#" by {
      assert e[..1][0] == m[0];
    }
    var h := NatToString(hour);
    var d := CronDays(days);
    DigitsNoSpace(m);
    DigitsNoSpace(h);
    if days != [] {
      CronDaysShape(days);
    }
    NoSpaceNoNewline(m);
    NoSpaceNoNewline(h);
    if days != [] {
      NoSpaceNoNewline(d);
    } else {
      assert d == "";
    }
    assert e == m + " " + h + " * * " + d + " " + command;
  }

  lemma NoSpaceNoNewline(s: string)
    requires NoSpace(s)
    ensures '\n' !in s
  {
  }

  /** A command ending in a non-space character has a word. */
  lemma CommandHasWord(command: string)
    requires command != [] && !IsSpace(command[|command| - 1])
    ensures Words(command) != []
  {
  }

  /** The job the viewer should list for a schedule the creator wrote: named
      by the label, the command's words, the time and the days, active. */
  function CreatedJob(name: string, minute: nat, hour: nat, days: seq<string>, command: string): Schedule
    requires AllWeekDays(days)
  {
    Schedule(name, Join(Words(command), " "), ScheduleText(NatToString(hour), NatToString(minute), CronDays(days)),
             "Active", "cron_job", CronEntry(minute, hour, days, command))
  }

  /** The three lines the creator appends yield exactly that job, whatever
      the lines before left pending. */
  lemma CreatedLinesParse(name: string, minute: nat, hour: nat, days: seq<string>, command: string, pending: Option<string>)
    requires AllWeekDays(days) && days != [] && PlainName(name) && PlainCommand(command)
    ensures ParseLines([Comment(name), CronEntry(minute, hour, days, command), ""], pending)
            == [CreatedJob(name, minute, hour, days, command)]
  {
    var c := Comment(name);
    var e := CronEntry(minute, hour, days, command);
    CommentIsMarker(name);
    EntryIsPlain(minute, hour, days, command);
    MarkerThenEntry(c, e, [""], pending);
    assert [c, e] + [""] == [c, e, ""];
    assert ParseLines([""], None) == [] by {
      assert Strip("") == "";
    }
    CreatedEntry(name, minute, hour, days, command);
  }

  /** The cron line the creator writes yields the created job. */
  lemma CreatedEntry(name: string, minute: nat, hour: nat, days: seq<string>, command: string)
    requires AllWeekDays(days) && days != [] && PlainCommand(command)
    ensures EntryOf(name, CronEntry(minute, hour, days, command)) == [CreatedJob(name, minute, hour, days, command)]
  {
    var e := CronEntry(minute, hour, days, command);
    CronEntryWords(minute, hour, days, command);
    CommandHasWord(command);
    FiveFields(NatToString(minute), NatToString(hour), "*", "*", CronDays(days), Words(command));
    var ws := Words(e);
    assert |ws| >= 6 && ws[5..] == Words(command);
    assert ws[0] == NatToString(minute) && ws[1] == NatToString(hour) && ws[4] == CronDays(days);
  }

  /** After a creation the viewer lists the jobs of the old crontab, then
      the new one. */
  lemma CreatedJobIsListed(current: Option<string>, name: string, minute: nat, hour: nat, days: seq<string>, command: string)
    requires AllWeekDays(days) && days != [] && PlainName(name) && PlainCommand(command)
    ensures CronJobs(Some(NewCrontab(current, name, CronEntry(minute, hour, days, command))))
            == CronJobs(Some(RStrip(current.GetOr("")))) + [CreatedJob(name, minute, hour, days, command)]
  {
    var e := CronEntry(minute, hour, days, command);
    EntryIsPlain(minute, hour, days, command);
    CrontabLines(current, name, e);
    var lines := Split(RStrip(current.GetOr("")), '\n');
    ParseConcat(lines, [Comment(name), e, ""], None);
    CreatedLinesParse(name, minute, hour, days, command, PendingAfter(lines, None));
  }

  /** Cron's number for a day is shown as that day again. */
  lemma DayCodeName(d: string)
    requires d in WeekDays
    ensures DayName(Strip(CronDayCode(d))) == d
  {
    StripKeeps(CronDayCode(d));
  }

  /** The days the viewer shows for the creator's day field are the selected
      days, joined by ", ". */
  lemma ShownDays(days: seq<string>)
    requires AllWeekDays(days) && days != []
    ensures ConvertDays(CronDays(days)) == Join(days, ", ")
  {
    var codes := CronDayCodes(days);
    if |days| == 1 {
      assert CronDays(days) == codes[0];
      assert codes[0] == [codes[0][0]];
      ConvertOneDay(codes[0]);
      DayCodeName(days[0]);
    } else {
      CodesNoComma(days);
      ConvertDayList(codes);
      DayNamesOfCodes(days);
    }
  }

  lemma CodesNoComma(days: seq<string>)
    requires AllWeekDays(days)
    ensures forall i :: 0 <= i < |days| ==> ',' !in CronDayCodes(days)[i]
  {
    var codes := CronDayCodes(days);
    forall i | 0 <= i < |codes|
      ensures ',' !in codes[i]
    {
      assert codes[i] == [codes[i][0]] && IsDigit(codes[i][0]);
    }
  }

  lemma DayNamesOfCodes(days: seq<string>)
    requires AllWeekDays(days)
    ensures DayNames(CronDayCodes(days)) == days
  {
    var codes := CronDayCodes(days);
    forall i | 0 <= i < |codes|
      ensures DayNames(codes)[i] == days[i]
    {
      DayCodeName(days[i]);
    }
  }

  /** The schedule shown for a created job: the hour, the minute padded to
      two digits, and the selected days. */
  lemma CreatedScheduleText(name: string, minute: nat, hour: nat, days: seq<string>, command: string)
    requires AllWeekDays(days) && days != []
    ensures CreatedJob(name, minute, hour, days, command).schedule
            == NatToString(hour) + ":" + Pad2(minute) + " on " + Join(days, ", ")
  {
    CronDaysShape(days);
    assert CronDays(days) != "*" by {
      assert IsDigit(CronDays(days)[0]) || CronDays(days)[0] == ',';
    }
    ShownDays(days);
    var h, m, d := NatToString(hour), NatToString(minute), CronDays(days);
    assert ScheduleText(h, m, d) == h + ":" + Pad2(minute) + (" on " + Join(days, ", "));
    Assoc4(h, ":", Pad2(minute), " on ", Join(days, ", "));
  }

  lemma Assoc4(a: string, b: string, c: string, d: string, e: string)
    ensures a + b + c + (d + e) == a + b + c + d + e
  {
  }

  lemma FiveFields<T>(a: T, b: T, c: T, d: T, e: T, rest: seq<T>)
    ensures var s := [a, b, c, d, e] + rest;
            |s| >= 6 <==> rest != []
    ensures var s := [a, b, c, d, e] + rest;
            s[0] == a && s[1] == b && s[4] == e && s[5..] == rest
  {
  }

  /** The three appended lines lose the marker and the cron line to a
      deletion of the job and keep the final empty line. */
  lemma CreatedLinesDelete(name: string, e: string)
    requires PlainName(name) && Strip(e) == e && e != ""
    ensures DeleteLines([Comment(name), e, ""], name, e, false) == [""]
  {
    CommentIsMarker(name);
    var c := Comment(name);
    assert [c, e, ""][1..] == [e, ""] && [e, ""][1..] == [""] && [""][1..] == [];
    assert Strip("") == "";
    assert MarkerLine(name) != "";
    assert DeleteLines([c, e, ""], name, e, false) == DeleteLines([e, ""], name, e, true);
    assert DeleteLines([e, ""], name, e, true) == DeleteLines([""], name, e, false);
    assert DeleteLines([""], name, e, false) == [""] + DeleteLines([], name, e, false);
  }

  /** Deleting the created job restores the old crontab (up to trailing
      whitespace), provided the old crontab had no marker of that name. */
  lemma CreatedJobIsDeleted(current: Option<string>, name: string, minute: nat, hour: nat, days: seq<string>, command: string)
    requires AllWeekDays(days) && PlainName(name) && PlainCommand(command)
    requires var old_ := Split(RStrip(current.GetOr("")), '\n');
             forall i :: 0 <= i < |old_| ==> Strip(old_[i]) != MarkerLine(name)
    ensures var e := CronEntry(minute, hour, days, command);
            DeletedCrontab(Some(NewCrontab(current, name, e)), name, e) == RStrip(current.GetOr("")) + "\n"
  {
    var e := CronEntry(minute, hour, days, command);
    EntryIsPlain(minute, hour, days, command);
    CrontabLines(current, name, e);
    var lines := Split(RStrip(current.GetOr("")), '\n');
    DeleteConcat(lines, [Comment(name), e, ""], name, e, false);
    DeleteKeepsAll(lines, name, e);
    CreatedLinesDelete(name, e);
    JoinAppend(lines, "", "\n");
    JoinSplit(RStrip(current.GetOr("")), '\n');
  }

  /** Create, list, then delete the listed job: the crontab is back to what
      it was, up to trailing whitespace. */
  lemma CreateListDelete(current: Option<string>, name: string, minute: nat, hour: nat, days: seq<string>, command: string)
    requires AllWeekDays(days) && days != [] && PlainName(name) && PlainCommand(command)
    requires var old_ := Split(RStrip(current.GetOr("")), '\n');
             forall i :: 0 <= i < |old_| ==> Strip(old_[i]) != MarkerLine(name)
    ensures var crontab := NewCrontab(current, name, CronEntry(minute, hour, days, command));
            var jobs := CronJobs(Some(crontab));
            jobs != [] && jobs[|jobs| - 1].name == name
            && DeletedCrontab(Some(crontab), jobs[|jobs| - 1].name, jobs[|jobs| - 1].cronLine)
               == RStrip(current.GetOr("")) + "\n"
  {
    CreatedJobIsListed(current, name, minute, hour, days, command);
    CreatedJobIsDeleted(current, name, minute, hour, days, command);
  }
}
