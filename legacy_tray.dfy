/** The older tray application: it lists commands one nesting level deep,
    and runs a command without recording it in any history. */
module LegacyTray {
  import opened Wrappers
  import opened Text
  import opened JsonDoc
  import opened TrayCore

  // ---------------------------------------------------------------------
  // Listing the commands.

  /** The record a nested group's item gives: commands only. */
  function SubRecords(group: string, items: Fields): seq<CommandRecord>
  {
    if items == [] then []
    else
      (if IsCommandNode(items[0].1) then [RecordOf(group, items[0].0, items[0].1.fields)] else [])
      + SubRecords(group, items[1..])
  }

  /** What one item of a top-level group gives: a command gives its record;
      a mapping without "command" gives its direct commands under the longer
      name; anything else gives nothing. */
  function ItemRecords(group: string, name: string, item: Json): seq<CommandRecord> {
    if IsCommandNode(item) then [RecordOf(group, name, item.fields)]
    else if item.JObj? then SubRecords(SubGroup(group, name), item.fields)
    else []
  }

  /** What `process_items(group, items)` appends. */
  function GroupRecords(group: string, items: Fields): seq<CommandRecord>
  {
    if items == [] then []
    else ItemRecords(group, items[0].0, items[0].1) + GroupRecords(group, items[1..])
  }

  /** The records of `get_all_commands`: only top-level mappings without
      "command" are processed. */
  function LegacyCommands(groups: Fields): seq<CommandRecord>
  {
    if groups == [] then []
    else
      (if IsGroupNode(groups[0].1) then GroupRecords(groups[0].0, groups[0].1.fields) else [])
      + LegacyCommands(groups[1..])
  }

  lemma SubFrom(group: string, items: Fields, i: int)
    requires 0 <= i < |items|
    ensures SubRecords(group, items[i..])
            == (if IsCommandNode(items[i].1) then [RecordOf(group, items[i].0, items[i].1.fields)] else [])
               + SubRecords(group, items[i + 1..])
  {
    assert items[i..][0] == items[i] && items[i..][1..] == items[i + 1..];
  }

  lemma GroupFrom(group: string, items: Fields, i: int)
    requires 0 <= i < |items|
    ensures GroupRecords(group, items[i..]) == ItemRecords(group, items[i].0, items[i].1) + GroupRecords(group, items[i + 1..])
  {
    assert items[i..][0] == items[i] && items[i..][1..] == items[i + 1..];
  }

  lemma LegacyFrom(groups: Fields, i: int)
    requires 0 <= i < |groups|
    ensures LegacyCommands(groups[i..])
            == (if IsGroupNode(groups[i].1) then GroupRecords(groups[i].0, groups[i].1.fields) else [])
               + LegacyCommands(groups[i + 1..])
  {
    assert groups[i..][0] == groups[i] && groups[i..][1..] == groups[i + 1..];
  }

  /** The inner loop of `process_items`, over a nested group's items. */
  method ProcessSubItems(group: string, items: Fields, result: seq<CommandRecord>) returns (out: seq<CommandRecord>)
    ensures out == result + SubRecords(group, items)
  {
    out := result;
    var i := 0;
    assert items[0..] == items;
    while i < |items|
      invariant 0 <= i <= |items|
      invariant result + SubRecords(group, items) == out + SubRecords(group, items[i..])
    {
      ghost var before := out;
      SubFrom(group, items, i);
      var step: seq<CommandRecord> := [];
      var (name, item) := items[i];
      if item.JObj? && HasKey(item.fields, "command") {
        step := [RecordOf(group, name, item.fields)];
      }
      out := out + step;
      Assoc(before, step, SubRecords(group, items[i + 1..]));
      i := i + 1;
    }
    assert items[i..] == [];
  }

  /** One item of `process_items`. */
  method ProcessItem(group: string, name: string, item: Json, result: seq<CommandRecord>) returns (out: seq<CommandRecord>)
    ensures out == result + ItemRecords(group, name, item)
  {
    out := result;
    if item.JObj? && HasKey(item.fields, "command") {
      out := out + [RecordOf(group, name, item.fields)];
    } else if item.JObj? {
      out := ProcessSubItems(SubGroup(group, name), item.fields, out);
    }
  }

  /** `process_items(group_name, items)`, appending to the shared list. */
  method ProcessItems(group: string, items: Fields, result: seq<CommandRecord>) returns (out: seq<CommandRecord>)
    ensures out == result + GroupRecords(group, items)
  {
    out := result;
    var i := 0;
    assert items[0..] == items;
    while i < |items|
      invariant 0 <= i <= |items|
      invariant result + GroupRecords(group, items) == out + GroupRecords(group, items[i..])
    {
      ghost var before := out;
      GroupFrom(group, items, i);
      var (name, item) := items[i];
      out := ProcessItem(group, name, item, out);
      Assoc(before, ItemRecords(group, name, item), GroupRecords(group, items[i + 1..]));
      i := i + 1;
    }
    assert items[i..] == [];
  }

  /** `get_all_commands` over the loaded tree. */
  method GetAllCommands(groups: Fields) returns (result: seq<CommandRecord>)
    ensures result == LegacyCommands(groups)
  {
    result := [];
    var i := 0;
    assert groups[0..] == groups;
    while i < |groups|
      invariant 0 <= i <= |groups|
      invariant LegacyCommands(groups) == result + LegacyCommands(groups[i..])
    {
      ghost var before := result;
      LegacyFrom(groups, i);
      var (name, items) := groups[i];
      ghost var step := if IsGroupNode(items) then GroupRecords(name, items.fields) else [];
      if items.JObj? && !HasKey(items.fields, "command") {
        result := ProcessItems(name, items.fields, result);
      }
      assert result == before + step;
      Assoc(before, step, LegacyCommands(groups[i + 1..]));
      i := i + 1;
    }
    assert groups[i..] == [];
  }

  /** At most one level of nesting: every record is listed under the
      group's own name or under the name of one of its items. */
  lemma {:induction false} GroupDepth(group: string, items: Fields)
    ensures forall r :: r in GroupRecords(group, items) ==>
              r.group == group || exists i :: 0 <= i < |items| && r.group == SubGroup(group, items[i].0)
  {
    if items != [] {
      GroupDepth(group, items[1..]);
      SubGroupName(SubGroup(group, items[0].0), items[0].1);
      forall r | r in GroupRecords(group, items)
        ensures r.group == group || exists i :: 0 <= i < |items| && r.group == SubGroup(group, items[i].0)
      {
        if r !in ItemRecords(group, items[0].0, items[0].1) {
          assert r in GroupRecords(group, items[1..]);
          if r.group != group {
            var i :| 0 <= i < |items[1..]| && r.group == SubGroup(group, items[1..][i].0);
            assert items[1..][i] == items[i + 1];
          }
        }
      }
    }
  }

  /** Every record of a nested group carries the nested group's name. */
  lemma SubGroupName(group: string, item: Json)
    ensures item.JObj? ==> forall r :: r in SubRecords(group, item.fields) ==> r.group == group
  {
    if item.JObj? {
      SubRecordsNamed(group, item.fields);
    }
  }

  lemma {:induction false} SubRecordsNamed(group: string, items: Fields)
    ensures forall r :: r in SubRecords(group, items) ==> r.group == group
  {
    if items != [] {
      SubRecordsNamed(group, items[1..]);
    }
  }

  /** A command two levels below a group is not listed. */
  lemma DeeperLevelsIgnored(command: Json)
    ensures var leaf := JObj([("command", command)]);
            LegacyCommands([("g", JObj([("s", JObj([("t", JObj([("x", leaf)]))]))]))]) == []
  {
    var leaf := JObj([("command", command)]);
    var t := JObj([("x", leaf)]);
    var s := JObj([("t", t)]);
    var groups := [("g", JObj([("s", s)]))];
    assert Keys([("x", leaf)]) == ["x"];
    assert !IsCommandNode(t);
    assert SubRecords(SubGroup("g", "s"), [("t", t)]) == [];
    assert Keys([("t", t)]) == ["t"];
    assert !IsCommandNode(s);
    assert ItemRecords("g", "s", s) == [];
    assert GroupRecords("g", [("s", s)]) == [];
  }

  /** A tree the old listing fully covers: top-level groups without
      "command", nested groups holding only commands, and no item named
      "icon". */
  predicate Shallow(groups: Fields) {
    forall i :: 0 <= i < |groups| ==> IsGroupNode(groups[i].1) && ShallowGroup(groups[i].1.fields)
  }

  predicate ShallowGroup(items: Fields) {
    forall i :: 0 <= i < |items| ==>
      items[i].0 != "icon"
      && (IsGroupNode(items[i].1) ==> NoNested(items[i].1.fields))
  }

  predicate NoNested(items: Fields) {
    forall i :: 0 <= i < |items| ==> items[i].0 != "icon" && !IsGroupNode(items[i].1)
  }

  /** On such a tree the old listing and the current tray's listing are
      the same. */
  lemma {:induction false} AgreesOnShallowTrees(groups: Fields)
    requires Shallow(groups)
    ensures LegacyCommands(groups) == AllCommands(groups)
  {
    if groups != [] {
      assert Shallow(groups[1..]) by {
        forall i | 0 <= i < |groups[1..]|
          ensures IsGroupNode(groups[1..][i].1) && ShallowGroup(groups[1..][i].1.fields)
        {
          assert groups[1..][i] == groups[i + 1];
        }
      }
      AgreesOnShallowTrees(groups[1..]);
      GroupAgrees(groups[0].0, groups[0].1.fields);
    }
  }

  lemma {:induction false} GroupAgrees(group: string, items: Fields)
    requires ShallowGroup(items)
    ensures GroupRecords(group, items) == Flatten(group, items)
  {
    if items != [] {
      assert ShallowGroup(items[1..]) by {
        forall i | 0 <= i < |items[1..]|
          ensures items[1..][i].0 != "icon" && (IsGroupNode(items[1..][i].1) ==> NoNested(items[1..][i].1.fields))
        {
          assert items[1..][i] == items[i + 1];
        }
      }
      GroupAgrees(group, items[1..]);
      var (name, item) := items[0];
      assert name != "icon";
      if IsGroupNode(item) {
        SubAgrees(SubGroup(group, name), item.fields);
      }
    }
  }

  lemma {:induction false} SubAgrees(group: string, items: Fields)
    requires NoNested(items)
    ensures SubRecords(group, items) == Flatten(group, items)
  {
    if items != [] {
      assert NoNested(items[1..]) by {
        forall i | 0 <= i < |items[1..]|
          ensures items[1..][i].0 != "icon" && !IsGroupNode(items[1..][i].1)
        {
          assert items[1..][i] == items[i + 1];
        }
      }
      SubAgrees(group, items[1..]);
    }
  }

  /** Unlike the current tray, an entry named "icon" that holds a command
      is listed. */
  lemma IconCommandListed(command: Json)
    ensures var entry := [("command", command)];
            LegacyCommands([("g", JObj([("icon", JObj(entry))]))]) == [RecordOf("g", "icon", entry)]
  {
    var entry := [("command", command)];
    assert Keys(entry) == ["command"];
    var g := [("icon", JObj(entry))];
    assert Keys(g) == ["icon"];
    assert GroupRecords("g", g) == [RecordOf("g", "icon", entry)];
  }

  // ---------------------------------------------------------------------
  // Running a command.

  /** `execute(title, command, confirm, show_output, prompt)`: `answer` is
      the reply to the confirmation and `input` the prompt's text (None when
      cancelled). Nothing is recorded, so the outcome is the current tray's
      outcome once its history step has succeeded. */
  method Execute(command: Json, confirm: Json, showOutput: Json, prompt: Json, answer: bool, input: Option<string>)
    returns (outcome: Launch)
    ensures outcome == LaunchOutcome(command, confirm, showOutput, prompt, answer, input)
    ensures !outcome.HistoryFailed?
    ensures Truthy(confirm) && !answer ==> outcome == Declined
    ensures Truthy(confirm) && !Truthy(command) ==> outcome == Declined
    ensures !Truthy(confirm) || (Truthy(command) && answer) ==> Truthy(prompt) && (input.None? || input.value == "") ==> outcome == Cancelled
    ensures outcome.Runs? ==> outcome.inWindow == Truthy(showOutput)
    ensures outcome.Runs? && !Truthy(prompt) ==> outcome.command == command
    ensures outcome.Runs? && Truthy(prompt) ==>
              command.JStr? && input.Some? && outcome.command == JStr(Replace(command.s, Placeholder, input.value))
  {
    if Truthy(confirm) {
      var given := Truthy(command) && answer;
      if !given {
        return Declined;
      }
    }
    var cmd := command;
    if Truthy(prompt) {
      if input.None? || input.value == "" {
        return Cancelled;
      }
      if !cmd.JStr? {
        return BadCommand;
      }
      cmd := JStr(Replace(cmd.s, Placeholder, input.value));
    }
    if Truthy(showOutput) {
      return Runs(cmd, true);
    }
    return Runs(cmd, false);
  }
}
