/** The data logic of the tray application: resolving a favorite's dotted
    `ref` against the live command tree, the fields a menu action is built
    from, flattening the tree into command records, and what running a
    command does (history first, then confirmation, then the prompt and the
    `{promptInput}` substitution). Menus, dialogs and processes are left to
    the caller: the answers of the dialogs are parameters. */
module TrayCore {
  import opened Wrappers
  import opened JsonDoc
  import opened Text
  import opened HistoryRules
  import opened StoreSpec
  import opened StoreLaws
  import opened ConfigStore

  // ---------------------------------------------------------------------
  // Resolving favorite references.

  /** The strict walk of `_resolve_command_reference`: every part must be a
      key of the current mapping (`part in current`, then `current[part]`);
      None when one is missing or the current value is not a mapping (the
      check fails or the lookup raises, and the item is returned). */
  function StrictWalk(cur: Json, parts: seq<string>): Option<Json>
    decreases parts
  {
    if parts == [] then Some(cur)
    else if !cur.JObj? || !HasKey(cur.fields, parts[0]) then None
    else StrictWalk(Get(cur.fields, parts[0]).value, parts[1..])
  }

  /** `resolved` for a path of two parts or more: the walk to the parent,
      then `.get(last, {})`. */
  function ResolveTarget(tree: Json, parts: seq<string>): Option<Json>
    requires |parts| >= 2
  {
    match StrictWalk(tree, parts[..|parts| - 1])
    case None => None
    case Some(cur) => if cur.JObj? then Some(GetOr(cur.fields, parts[|parts| - 1], JObj([]))) else None
  }

  /** The item unless it is a mapping holding "ref" whose dotted string path
      leads through the tree to a command entry; then that entry. */
  function Resolve(tree: Json, item: Json): (r: Json)
    ensures r == item || IsCommandNode(r)
  {
    if !(item.JObj? && HasKey(item.fields, "ref")) then item
    else
      var ref := Get(item.fields, "ref").value;
      if !ref.JStr? then item
      else
        var parts := Split(ref.s, '.');
        if |parts| < 2 then item
        else
          var found := ResolveTarget(tree, parts);
          if found.Some? && IsCommandNode(found.value) then found.value else item
  }

  /** The loop of `_resolve_command_reference` over all parts but the
      last: None as soon as a part is missing or the node is not a mapping. */
  method WalkParts(tree: Json, walk: seq<string>) returns (r: Option<Json>)
    ensures r == StrictWalk(tree, walk)
  {
    var current := tree;
    var i := 0;
    assert walk[0..] == walk;
    while i < |walk|
      invariant 0 <= i <= |walk|
      invariant StrictWalk(tree, walk) == StrictWalk(current, walk[i..])
    {
      assert walk[i..][0] == walk[i] && walk[i..][1..] == walk[i + 1..];
      if !current.JObj? || !HasKey(current.fields, walk[i]) {
        return None;
      }
      current := Get(current.fields, walk[i]).value;
      i := i + 1;
    }
    assert walk[i..] == [];
    return Some(current);
  }

  method ResolveCommandReference(tree: Json, item: Json) returns (resolved: Json)
    ensures resolved == Resolve(tree, item)
  {
    if !(item.JObj? && HasKey(item.fields, "ref")) {
      return item;
    }
    var ref := Get(item.fields, "ref").value;
    if !ref.JStr? {
      return item;
    }
    var parts := Split(ref.s, '.');
    if |parts| < 2 {
      return item;
    }
    var current := WalkParts(tree, parts[..|parts| - 1]);
    if current.None? || !current.value.JObj? {
      return item;
    }
    var found := GetOr(current.value.fields, parts[|parts| - 1], JObj([]));
    if IsCommandNode(found) {
      return found;
    }
    return item;
  }

  lemma {:induction false} StrictWalkSnoc(cur: Json, parts: seq<string>, x: string)
    ensures StrictWalk(cur, parts + [x])
            == match StrictWalk(cur, parts)
               case None => None
               case Some(c) => if c.JObj? && HasKey(c.fields, x) then Some(Get(c.fields, x).value) else None
    decreases parts
  {
    if parts == [] {
      assert [] + [x] == [x];
    } else {
      assert (parts + [x])[1..] == parts[1..] + [x];
      if cur.JObj? && HasKey(cur.fields, parts[0]) {
        StrictWalkSnoc(Get(cur.fields, parts[0]).value, parts[1..], x);
      }
    }
  }

  /** A resolved reference is the entry found by walking the whole path:
      the live node itself, not a copy. */
  lemma ResolveFinds(tree: Json, item: Json)
    requires Resolve(tree, item) != item
    ensures item.JObj? && HasKey(item.fields, "ref") && Get(item.fields, "ref").value.JStr?
    ensures var parts := Split(Get(item.fields, "ref").value.s, '.');
            |parts| >= 2 && StrictWalk(tree, parts) == Some(Resolve(tree, item))
            && IsCommandNode(Resolve(tree, item))
  {
    var parts := Split(Get(item.fields, "ref").value.s, '.');
    var init, last := parts[..|parts| - 1], parts[|parts| - 1];
    var found := ResolveTarget(tree, parts);
    assert found.Some? && IsCommandNode(found.value) && Resolve(tree, item) == found.value;
    var c := StrictWalk(tree, init).value;
    assert c.JObj? && found.value == GetOr(c.fields, last, JObj([]));
    assert Get(c.fields, last) == Some(found.value);
    assert parts == init + [last];
    StrictWalkSnoc(tree, init, last);
  }

  /** Conversely, a reference whose path leads to a command entry resolves
      to that entry. */
  lemma ResolveComplete(tree: Json, item: Json, node: Json)
    requires item.JObj? && HasKey(item.fields, "ref") && Get(item.fields, "ref").value.JStr?
    requires |Split(Get(item.fields, "ref").value.s, '.')| >= 2
    requires StrictWalk(tree, Split(Get(item.fields, "ref").value.s, '.')) == Some(node)
    requires IsCommandNode(node)
    ensures Resolve(tree, item) == node
  {
    var parts := Split(Get(item.fields, "ref").value.s, '.');
    var init, last := parts[..|parts| - 1], parts[|parts| - 1];
    assert parts == init + [last];
    StrictWalkSnoc(tree, init, last);
    var c := StrictWalk(tree, init).value;
    assert c.JObj? && Get(c.fields, last) == Some(node);
    assert ResolveTarget(tree, parts) == Some(node);
  }

  /** Anything but a mapping holding "ref" is returned as it is. */
  lemma ResolveNonReference(tree: Json, item: Json)
    requires !(item.JObj? && HasKey(item.fields, "ref"))
    ensures Resolve(tree, item) == item
  {
  }

  /** The lenient walk of `add_to_favorites` and the strict walk agree
      whenever the lenient one ends at a non-empty mapping: a missing part
      only ever leads the lenient walk to `{}`. */
  lemma {:induction false} LenientWalkIsStrict(cur: Json, parts: seq<string>, d: Json)
    requires WalkDefault(cur, parts) == Some(d) && d.JObj? && d.fields != []
    ensures StrictWalk(cur, parts) == Some(d)
    decreases parts
  {
    if parts != [] {
      if HasKey(cur.fields, parts[0]) {
        LenientWalkIsStrict(Get(cur.fields, parts[0]).value, parts[1..], d);
      } else {
        WalkEmpty(parts[1..]);
      }
    }
  }

  /** The reference `add_to_favorites` stores for a path resolves, against
      the same tree, to the entry the path was checked to name. */
  lemma FavoriteReferenceResolves(tree: Json, path: string)
    requires |Split(path, '.')| >= 2
    requires FavoriteTarget(tree, Split(path, '.')).Some?
    requires IsCommandNode(FavoriteTarget(tree, Split(path, '.')).value)
    ensures Resolve(tree, RefEntry(path)) == FavoriteTarget(tree, Split(path, '.')).value
  {
    var parts := Split(path, '.');
    var init, last := parts[..|parts| - 1], parts[|parts| - 1];
    var target := FavoriteTarget(tree, parts).value;
    var cur := WalkDefault(tree, init).value;
    assert cur.JObj? && Get(cur.fields, last) == Some(target);
    assert HasKey(cur.fields, last);
    LenientWalkIsStrict(tree, init, cur);
    assert ResolveTarget(tree, parts) == Some(target);
    assert Get(RefEntry(path).fields, "ref") == Some(JStr(path));
  }

  /** Every favorite added through the manager resolves to a command entry
      of the tree it was checked against. */
  lemma AddedFavoriteResolves(env: Env, st: Store, path: string, custom: Option<string>)
    requires Inv(st) && AddFavorite(env, st, path, custom).1
    ensures GetCommands(env, st, false).1.Success?
    ensures IsCommandNode(Resolve(GetCommands(env, st, false).1.value, RefEntry(path)))
  {
    AddFavoriteOutcome(env, st, path, custom);
    FavoriteReferenceResolves(GetCommands(env, st, false).1.value, path);
  }

  // ---------------------------------------------------------------------
  // The fields of a menu action.

  /** What an action runs: its title and the values handed to `execute`. */
  datatype Action = Action(title: string, command: Json, icon: Json, showOutput: Json, confirm: Json, prompt: Json)

  /** The values a command entry supplies, with the defaults of the source:
      no output window, no confirmation, no prompt, the parent's icon. */
  function EntryAction(title: string, entry: Fields, command: Json, parentIcon: string): Action {
    Action(title, command, GetOr(entry, "icon", JStr(parentIcon)), GetOr(entry, "showOutput", JBool(false)),
           GetOr(entry, "confirm", JBool(false)), GetOr(entry, "prompt", JNull))
  }

  /** `_add_command_to_menu(menu, label, item, parent_icon, group)`: the
      action, or None where the source raises (an item that is not a mapping,
      or whose "command" is missing or empty). A favorite reference that
      resolves takes the entry's values; one that does not is treated as a
      regular item. */
  function MenuAction(tree: Json, group: string, name: string, item: Json, parentIcon: string): (r: Option<Action>)
    ensures r.Some? ==> r.value.title == name
  {
    var resolved := Resolve(tree, item);
    if group == "Favorites" && item.JObj? && HasKey(item.fields, "ref") && resolved != item then
      Some(EntryAction(name, resolved.fields, GetOr(resolved.fields, "command", JStr("")), parentIcon))
    else if !item.JObj? then None
    else
      var command := GetOr(item.fields, "command", JNull);
      if !Truthy(command) then None
      else Some(EntryAction(name, item.fields, command, parentIcon))
  }

  /** A regular item yields an action exactly when it is a mapping with a
      non-empty "command"; the action carries that command and the entry's
      flags with their defaults. */
  lemma MenuActionRegular(tree: Json, group: string, name: string, item: Json, parentIcon: string)
    requires group != "Favorites"
    ensures MenuAction(tree, group, name, item, parentIcon).Some?
            <==> item.JObj? && HasKey(item.fields, "command") && Truthy(Get(item.fields, "command").value)
    ensures MenuAction(tree, group, name, item, parentIcon).Some? ==>
              var a := MenuAction(tree, group, name, item, parentIcon).value;
              a.command == Get(item.fields, "command").value
              && a.confirm == (if HasKey(item.fields, "confirm") then Get(item.fields, "confirm").value else JBool(false))
              && a.showOutput == (if HasKey(item.fields, "showOutput") then Get(item.fields, "showOutput").value else JBool(false))
              && a.prompt == (if HasKey(item.fields, "prompt") then Get(item.fields, "prompt").value else JNull)
  {
  }

  /** A favorite whose reference resolves runs the referenced entry's
      command with the entry's flags, whatever the favorite itself holds. */
  lemma MenuActionFavorite(tree: Json, name: string, item: Json, parentIcon: string)
    requires Resolve(tree, item) != item
    ensures var e := Resolve(tree, item).fields;
            MenuAction(tree, "Favorites", name, item, parentIcon)
            == Some(Action(name, Get(e, "command").value, GetOr(e, "icon", JStr(parentIcon)),
                           GetOr(e, "showOutput", JBool(false)), GetOr(e, "confirm", JBool(false)),
                           GetOr(e, "prompt", JNull)))
  {
    ResolveFinds(tree, item);
  }

  /** A favorite reference that does not resolve, on an entry without its
      own "command", is the error of a regular item without a command. */
  lemma DanglingFavoriteFails(tree: Json, name: string, item: Json, parentIcon: string)
    requires item.JObj? && HasKey(item.fields, "ref") && !HasKey(item.fields, "command")
    requires !IsCommandNode(Resolve(tree, item))
    ensures MenuAction(tree, "Favorites", name, item, parentIcon).None?
  {
  }

  // ---------------------------------------------------------------------
  // Flattening the tree.

  /** One searchable command: `{"group", "label", "command", "confirm",
      "showOutput", "prompt"}`. */
  datatype CommandRecord = CommandRecord(group: string, name: string, command: Json, confirm: Json, showOutput: Json, prompt: Json)

  /** The record of a command entry, with the source's defaults. */
  function RecordOf(group: string, name: string, entry: Fields): CommandRecord
    requires HasKey(entry, "command")
  {
    CommandRecord(group, name, Get(entry, "command").value, GetOr(entry, "confirm", JBool(false)),
                  GetOr(entry, "showOutput", JBool(false)), GetOr(entry, "prompt", JNull))
  }

  /** The name a nested group's commands are listed under. */
  function SubGroup(group: string, name: string): string {
    group + " → " + name
  }

  /** The text a record is shown under in the search list and in the
      scheduler's command choice. */
  function DisplayText(r: CommandRecord): string {
    SubGroup(r.group, r.name)
  }

  /** What `process_items(group, items)` appends, depth first in the order
      of the items: a record per command entry, the records of each nested
      group (a mapping without "command") under its longer name, nothing for
      "icon" or for values that are not mappings. */
  function Flatten(group: string, items: Fields): seq<CommandRecord>
    decreases items
  {
    if items == [] then []
    else
      var (name, item) := items[0];
      assert items[0] in items && item < items[0];
      var here := if name == "icon" || !item.JObj? then []
                  else if HasKey(item.fields, "command") then [RecordOf(group, name, item.fields)]
                  else Flatten(SubGroup(group, name), item.fields);
      here + Flatten(group, items[1..])
  }

  /** The records of `get_all_commands`: every top-level mapping is
      processed under its own name; other top-level values are skipped. The
      tree is the one `get_commands` returned. */
  function AllCommands(groups: Fields): seq<CommandRecord>
    decreases groups
  {
    if groups == [] then []
    else
      (if groups[0].1.JObj? then Flatten(groups[0].0, groups[0].1.fields) else [])
      + AllCommands(groups[1..])
  }

  /** What the item at `i` contributes to the listing, then the rest. */
  lemma FlattenFrom(group: string, items: Fields, i: int)
    requires 0 <= i < |items|
    ensures var (name, item) := items[i];
            Flatten(group, items[i..])
            == (if name == "icon" || !item.JObj? then []
                else if HasKey(item.fields, "command") then [RecordOf(group, name, item.fields)]
                else Flatten(SubGroup(group, name), item.fields))
               + Flatten(group, items[i + 1..])
  {
    assert items[i..][0] == items[i] && items[i..][1..] == items[i + 1..];
  }

  method ProcessItems(group: string, items: Fields, result: seq<CommandRecord>) returns (out: seq<CommandRecord>)
    ensures out == result + Flatten(group, items)
    decreases items
  {
    out := result;
    var i := 0;
    assert items[0..] == items;
    while i < |items|
      invariant 0 <= i <= |items|
      invariant result + Flatten(group, items) == out + Flatten(group, items[i..])
    {
      var (name, item) := items[i];
      assert items[i] in items && item < items[i];
      FlattenFrom(group, items, i);
      ghost var before := out;
      ghost var here: seq<CommandRecord> := [];
      if item.JObj? && HasKey(item.fields, "command") && name != "icon" {
        out := out + [RecordOf(group, name, item.fields)];
        here := [RecordOf(group, name, item.fields)];
      } else if item.JObj? && !HasKey(item.fields, "command") && name != "icon" {
        here := Flatten(SubGroup(group, name), item.fields);
        out := ProcessItems(SubGroup(group, name), item.fields, out);
      }
      Assoc(before, here, Flatten(group, items[i + 1..]));
      i := i + 1;
    }
    assert items[i..] == [];
  }

  method GetAllCommands(groups: Fields) returns (result: seq<CommandRecord>)
    ensures result == AllCommands(groups)
  {
    result := [];
    var i := 0;
    while i < |groups|
      invariant 0 <= i <= |groups|
      invariant AllCommands(groups) == result + AllCommands(groups[i..])
    {
      assert groups[i..][1..] == groups[i + 1..];
      if groups[i].1.JObj? {
        result := ProcessItems(groups[i].0, groups[i].1.fields, result);
      }
      i := i + 1;
    }
  }

  /** The records of a list of items are those of its parts, in order. */
  lemma {:induction false} FlattenConcat(group: string, a: Fields, b: Fields)
    ensures Flatten(group, a + b) == Flatten(group, a) + Flatten(group, b)
    decreases a
  {
    if a != [] {
      assert (a + b)[0] == a[0] && (a + b)[1..] == a[1..] + b;
      FlattenConcat(group, a[1..], b);
    } else {
      assert a + b == b;
    }
  }

  /** Every record comes from an entry below the group: its group name
      extends the group's, and no record is named "icon". */
  lemma {:induction false} FlattenShape(group: string, items: Fields)
    ensures forall r :: r in Flatten(group, items) ==> StartsWith(r.group, group) && r.name != "icon"
    decreases items
  {
    if items != [] {
      var (name, item) := items[0];
      assert items[0] in items && item < items[0];
      FlattenShape(group, items[1..]);
      if name != "icon" && item.JObj? && !HasKey(item.fields, "command") {
        FlattenShape(SubGroup(group, name), item.fields);
        forall r | r in Flatten(SubGroup(group, name), item.fields)
          ensures StartsWith(r.group, group)
        {
          assert r.group[..|group|] == r.group[..|SubGroup(group, name)|][..|group|];
        }
      }
    }
  }

  /** Each direct command entry other than "icon" is listed under the group
      with its values, and each nested group's records are all listed. */
  lemma {:induction false} FlattenComplete(group: string, items: Fields, i: int)
    requires 0 <= i < |items| && items[i].0 != "icon" && items[i].1.JObj?
    ensures HasKey(items[i].1.fields, "command") ==>
              RecordOf(group, items[i].0, items[i].1.fields) in Flatten(group, items)
    ensures !HasKey(items[i].1.fields, "command") ==>
              forall r :: r in Flatten(SubGroup(group, items[i].0), items[i].1.fields) ==> r in Flatten(group, items)
    decreases items
  {
    FlattenFrom(group, items, 0);
    assert items[0..] == items;
    if i > 0 {
      assert items[1..][i - 1] == items[i];
      FlattenComplete(group, items[1..], i - 1);
    }
  }

  /** Every record of a top-level group is among all the records. */
  lemma {:induction false} AllCommandsComplete(groups: Fields, j: int)
    requires 0 <= j < |groups| && groups[j].1.JObj?
    ensures forall r :: r in Flatten(groups[j].0, groups[j].1.fields) ==> r in AllCommands(groups)
    decreases groups
  {
    if j > 0 {
      AllCommandsComplete(groups[1..], j - 1);
    }
  }

  /** A tree without nested groups lists exactly one record per command
      entry. */
  lemma {:induction false} FlattenCount(group: string, items: Fields)
    requires forall i :: 0 <= i < |items| ==> !IsGroupNode(items[i].1)
    ensures |Flatten(group, items)| == CountCommands(items)
    decreases items
  {
    if items != [] {
      FlattenCount(group, items[1..]);
    }
  }

  /** The number of command entries other than "icon" among the items. */
  function CountCommands(items: Fields): (n: nat)
    ensures n <= |items|
  {
    if items == [] then 0
    else (if items[0].0 != "icon" && IsCommandNode(items[0].1) then 1 else 0) + CountCommands(items[1..])
  }

  // ---------------------------------------------------------------------
  // Running a command.

  /** What a click leads to once the entry is in the history. */
  datatype Launch =
    | HistoryFailed              // adding to the history raised
    | Declined                   // the confirmation was asked and not given
    | Cancelled                  // the prompt was cancelled or left empty
    | BadCommand                 // the substitution was asked of a non-string command
    | Runs(command: Json, inWindow: bool)
    | ReloadFailed(command: Json, inWindow: bool, error: ConfigError)  // ran, then reloading the tree raised

  /** The history entry `execute` records. */
  function HistoryEntry(title: string, command: Json, confirm: Json, showOutput: Json, prompt: Json, timestamp: string): Fields {
    [("command", command), ("title", JStr(title)), ("confirm", confirm), ("showOutput", showOutput),
     ("prompt", prompt), ("timestamp", JStr(timestamp))]
  }

  const Placeholder: string := "{promptInput}"

  /** The outcome given the user's answers: `answer` to the confirmation,
      `input` from the prompt (None when cancelled). The confirmation is
      only asked for a non-empty command; an empty one counts as declined. */
  function LaunchOutcome(command: Json, confirm: Json, showOutput: Json, prompt: Json,
                         answer: bool, input: Option<string>): Launch
  {
    if Truthy(confirm) && !(Truthy(command) && answer) then Declined
    else if !Truthy(prompt) then Runs(command, Truthy(showOutput))
    else if input.None? || input.value == "" then Cancelled
    else if !command.JStr? then BadCommand
    else Runs(JStr(Replace(command.s, Placeholder, input.value)), Truthy(showOutput))
  }

  /** `execute(title, command, confirm, show_output, prompt)` on the store:
      the entry goes to the history before anything is asked, so a declined
      or cancelled command is still recorded. A command that runs is
      followed by `reload_commands`, which re-reads the tree with
      `get_commands(refresh=True)`; a failed reload raises after the run. */
  function ExecuteSpec(env: Env, st: Store, entry: Fields, launch: Launch): (Store, Launch) {
    var (st1, added) := StoreSpec.AddToHistory(env, st, entry);
    if added.None? then (st1, HistoryFailed)
    else if !launch.Runs? then (st1, launch)
    else
      var (st2, res) := StoreSpec.GetCommands(env, st1, true);
      if res.Success? then (st2, launch)
      else (st2, ReloadFailed(launch.command, launch.inWindow, res.error))
  }

  /** A click on a menu entry. */
  method Execute(cm: ConfigManager, title: string, command: Json, confirm: Json, showOutput: Json, prompt: Json,
                 timestamp: string, answer: bool, input: Option<string>) returns (outcome: Launch)
    requires cm.Valid()
    modifies cm
    ensures cm.Valid()
    ensures (cm.State(), outcome)
            == ExecuteSpec(cm.env, old(cm.State()), HistoryEntry(title, command, confirm, showOutput, prompt, timestamp),
                           LaunchOutcome(command, confirm, showOutput, prompt, answer, input))
  {
    var added := cm.AddToHistory(HistoryEntry(title, command, confirm, showOutput, prompt, timestamp));
    if added.None? {
      return HistoryFailed;
    }
    if Truthy(confirm) {
      var given := Truthy(command) && answer;
      if !given {
        return Declined;
      }
    }
    var cmd := command;
    if Truthy(prompt) {
      if input.None? || input.value == "" {
        return Cancelled;
      }
      if !cmd.JStr? {
        return BadCommand;
      }
      cmd := JStr(Replace(cmd.s, Placeholder, input.value));
    }
    var reloaded := cm.GetCommands(true);
    if reloaded.Failure? {
      return ReloadFailed(cmd, Truthy(showOutput), reloaded.error);
    }
    return Runs(cmd, Truthy(showOutput));
  }

  /** Only a command that runs reloads the tree: every other outcome leaves
      the store as recording the entry left it. */
  lemma NoRunNoReload(env: Env, st: Store, entry: Fields, launch: Launch)
    requires !launch.Runs?
    ensures ExecuteSpec(env, st, entry, launch).0 == StoreSpec.AddToHistory(env, st, entry).0
    ensures ExecuteSpec(env, st, entry, launch).1 == if StoreSpec.AddToHistory(env, st, entry).1.None? then HistoryFailed else launch
  {
  }

  /** After a run the cache holds the tree just read from the file that
      `get_commands` reads, whatever was cached before (even nothing, as
      after a restore). A reload that fails is reported with its error and
      leaves the cache as it was. */
  lemma RunReloadsTree(env: Env, st: Store, entry: Fields, command: Json, inWindow: bool)
    requires Inv(st)
    requires AddToHistory(env, st, entry).1.Some?
    ensures var st1 := AddToHistory(env, st, entry).0;
            var (st2, out) := ExecuteSpec(env, st, entry, Runs(command, inWindow));
            Inv(st2)
            && st2.history == st1.history && st2.favorites == st1.favorites
            && (out == Runs(command, inWindow) || out.ReloadFailed?)
            && (out.Runs? ==>
                  st2.commands.Some?
                  && ReadTarget(env, st2.files) in st2.files
                  && st2.files[ReadTarget(env, st2.files)] == JsonText(st2.commands.value))
            && (!out.Runs? ==>
                  out == ReloadFailed(command, inWindow, GetCommands(env, st1, true).1.error)
                  && st2.commands == st1.commands)
  {
    AddToHistoryOutcome(env, st, entry);
    var st1 := AddToHistory(env, st, entry).0;
    var (st2, res) := GetCommands(env, st1, true);
    assert Inv(st1);
    if res.Failure? {
      GetCommandsFailure(env, st1, true);
      assert st2.commands == st1.commands && st2.history == st1.history;
    } else {
      CharAfterDir(env.configDir, "/commands.json");
      CharAfterDir(env.configDir, "/win-commands.json");
      assert ReadTarget(env, st2.files) == ReadTarget(env, st1.files);
    }
  }

  /** A declined confirmation runs nothing. */
  lemma DeclinedRunsNothing(command: Json, showOutput: Json, prompt: Json, input: Option<string>)
    ensures LaunchOutcome(command, JBool(true), showOutput, prompt, false, input) == Declined
  {
  }

  /** A prompt cancelled or answered with nothing runs nothing. */
  lemma EmptyInputRunsNothing(command: Json, confirm: Json, showOutput: Json, prompt: Json, answer: bool, input: Option<string>)
    requires Truthy(prompt) && (input.None? || input.value == "")
    ensures !LaunchOutcome(command, confirm, showOutput, prompt, answer, input).Runs?
  {
  }

  /** Without a prompt the command runs as written. */
  lemma NoPromptRunsAsWritten(command: Json, confirm: Json, showOutput: Json, prompt: Json, answer: bool, input: Option<string>)
    requires !Truthy(prompt) && (Truthy(confirm) ==> Truthy(command) && answer)
    ensures LaunchOutcome(command, confirm, showOutput, prompt, answer, input) == Runs(command, Truthy(showOutput))
  {
  }

  /** A command holding the placeholder once, with no '{' before it, runs
      with the input in its place. */
  lemma SubstitutesInput(before: string, after: string, input: string, showOutput: Json, prompt: Json)
    requires '{' !in before && !Contains(after, Placeholder)
    requires Truthy(prompt) && input != ""
    ensures LaunchOutcome(JStr(before + Placeholder + after), JBool(false), showOutput, prompt, false, Some(input))
            == Runs(JStr(before + input + after), Truthy(showOutput))
  {
    assert before + Placeholder + after == before + (Placeholder + after);
    ReplaceSkips(before, Placeholder + after, Placeholder, input);
    ReplaceFront(after, Placeholder, input);
    ReplaceAbsent(after, Placeholder, input);
    assert before + (input + after) == before + input + after;
  }
}
