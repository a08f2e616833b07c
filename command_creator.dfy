/** The "Create New Command" dialog: the fields it reads become a command
    entry, which is stored under the chosen group of the command tree. The
    tree is loaded fresh before the change; the loaded tree is a parameter
    here and the tree handed back for saving is the result. */
module CommandCreator {
  import opened Wrappers
  import opened JsonDoc
  import opened TrayCore

  /** What the dialog's fields hold when "Create" is pressed. */
  datatype Form = Form(group: string, name: string, command: string, showOutput: bool, confirm: bool,
                       icon: string, promptChecked: bool, prompt: string)

  /** The group choices offered: the tree's top-level keys in order. */
  function GroupChoices(commands: Fields): (gs: seq<string>)
    ensures |gs| == |commands| && forall i :: 0 <= i < |gs| ==> gs[i] == commands[i].0
    ensures forall g :: g in gs <==> HasKey(commands, g)
  {
    Keys(commands)
  }

  /** The keys of a new entry are distinct. */
  lemma KeysDiffer()
    ensures "command" != "confirm"
    ensures "prompt" != "command" && "prompt" != "showOutput" && "prompt" != "confirm" && "prompt" != "icon"
    ensures "icon" != "command" && "icon" != "showOutput" && "icon" != "confirm"
  {
    assert "command"[2] != "confirm"[2];
    assert |"prompt"| == 6 && |"icon"| == 4 && |"command"| == 7 && |"confirm"| == 7 && |"showOutput"| == 10;
  }

  /** The entry the dialog builds: command and the two flags always, the
      icon when its text is not empty, the prompt when it is asked for and
      its text is not empty. */
  function CommandData(f: Form): (d: Fields)
    ensures Get(d, "command") == Some(JStr(f.command))
    ensures Get(d, "showOutput") == Some(JBool(f.showOutput)) && Get(d, "confirm") == Some(JBool(f.confirm))
    ensures Get(d, "icon") == if f.icon != "" then Some(JStr(f.icon)) else None
    ensures Get(d, "prompt") == if f.promptChecked && f.prompt != "" then Some(JStr(f.prompt)) else None
    ensures FrontKeys(d)
  {
    var base := [("command", JStr(f.command)), ("showOutput", JBool(f.showOutput)), ("confirm", JBool(f.confirm))];
    BaseFacts(f);
    WithPrompt(WithIcon(base, f), f)
  }

  /** The middle step of `CommandData`: the icon, when given. */
  function WithIcon(d: Fields, f: Form): (r: Fields)
    requires BaseLookups(d, f)
    ensures Get(r, "command") == Some(JStr(f.command))
    ensures Get(r, "showOutput") == Some(JBool(f.showOutput)) && Get(r, "confirm") == Some(JBool(f.confirm))
    ensures Get(r, "icon") == if f.icon != "" then Some(JStr(f.icon)) else None
    ensures Get(r, "prompt") == None
    ensures FrontKeys(r)
  {
    if f.icon != "" then
      KeysDiffer();
      GetPut(d, "icon", JStr(f.icon), "command");
      GetPut(d, "icon", JStr(f.icon), "showOutput");
      GetPut(d, "icon", JStr(f.icon), "confirm");
      GetPut(d, "icon", JStr(f.icon), "icon");
      GetPut(d, "icon", JStr(f.icon), "prompt");
      PutInPlace(d, "icon", JStr(f.icon), 0);
      PutInPlace(d, "icon", JStr(f.icon), 1);
      PutInPlace(d, "icon", JStr(f.icon), 2);
      Put(d, "icon", JStr(f.icon))
    else d
  }

  /** The dialog's construction of the entry, key by key. */
  method BuildCommandData(f: Form) returns (cmdData: Fields)
    ensures cmdData == CommandData(f)
  {
    cmdData := [("command", JStr(f.command)), ("showOutput", JBool(f.showOutput)), ("confirm", JBool(f.confirm))];
    if f.icon != "" {
      cmdData := Put(cmdData, "icon", JStr(f.icon));
    }
    if f.promptChecked && f.prompt != "" {
      cmdData := Put(cmdData, "prompt", JStr(f.prompt));
    }
  }

  /** The lookups the three fixed keys answer. */
  predicate BaseLookups(d: Fields, f: Form) {
    Get(d, "command") == Some(JStr(f.command))
    && Get(d, "showOutput") == Some(JBool(f.showOutput)) && Get(d, "confirm") == Some(JBool(f.confirm))
    && Get(d, "icon") == None && Get(d, "prompt") == None
    && FrontKeys(d)
  }

  lemma BaseFacts(f: Form)
    ensures BaseLookups([("command", JStr(f.command)), ("showOutput", JBool(f.showOutput)), ("confirm", JBool(f.confirm))], f)
  {
    var d := [("command", JStr(f.command)), ("showOutput", JBool(f.showOutput)), ("confirm", JBool(f.confirm))];
    KeysDiffer();
    var d1, d2 := d[1..], d[2..];
    assert d1[1..] == d2 && d2[1..] == [];
    assert d[0].0 == "command" && d1[0].0 == "showOutput" && d2[0].0 == "confirm";
    assert Get(d2, "confirm") == Some(JBool(f.confirm));
    assert Get(d1, "showOutput") == Some(JBool(f.showOutput));
    assert Get(d2, "icon") == None && Get(d1, "icon") == None;
    assert Get(d2, "prompt") == None && Get(d1, "prompt") == None;
    assert Get(d1, "confirm") == Get(d2, "confirm");
  }

  /** `Put` of a key leaves every other key's lookup alone. */
  lemma GetPutAll(fs: Fields, k: string, v: Json)
    ensures forall k2 :: Get(Put(fs, k, v), k2) == if k2 == k then Some(v) else Get(fs, k2)
  {
    forall k2 {
      GetPut(fs, k, v, k2);
    }
  }

  /** The entry's first three keys, in the order the dialog writes them. */
  predicate FrontKeys(d: Fields) {
    |d| >= 3 && d[0].0 == "command" && d[1].0 == "showOutput" && d[2].0 == "confirm"
  }

  /** The last step of `CommandData`: the prompt, when asked for. */
  function WithPrompt(d: Fields, f: Form): (r: Fields)
    requires Get(d, "prompt") == None
    requires FrontKeys(d)
    ensures Get(r, "prompt") == if f.promptChecked && f.prompt != "" then Some(JStr(f.prompt)) else None
    ensures Get(r, "command") == Get(d, "command") && Get(r, "showOutput") == Get(d, "showOutput")
    ensures Get(r, "confirm") == Get(d, "confirm") && Get(r, "icon") == Get(d, "icon")
    ensures FrontKeys(r)
  {
    if f.promptChecked && f.prompt != "" then
      KeysDiffer();
      GetPut(d, "prompt", JStr(f.prompt), "command");
      GetPut(d, "prompt", JStr(f.prompt), "showOutput");
      GetPut(d, "prompt", JStr(f.prompt), "confirm");
      GetPut(d, "prompt", JStr(f.prompt), "icon");
      GetPut(d, "prompt", JStr(f.prompt), "prompt");
      PutInPlace(d, "prompt", JStr(f.prompt), 0);
      PutInPlace(d, "prompt", JStr(f.prompt), 1);
      PutInPlace(d, "prompt", JStr(f.prompt), 2);
      Put(d, "prompt", JStr(f.prompt))
    else d
  }

  /** What pressing "Create" leads to. */
  datatype CreateOutcome =
    | Rejected            // "Group, Name, and Command are required!"; nothing changes
    | Raises              // the chosen group is not a mapping; the assignment raises
    | Saved(doc: Fields)  // the tree handed to the application for saving

  /** What `create_command` does: a missing group is created empty, then
      the entry is stored under the name, replacing an entry of that name. */
  function Creation(commands: Fields, f: Form): (r: CreateOutcome)
    ensures r.Rejected? <==> f.group == "" || f.name == "" || f.command == ""
    ensures r.Raises? <==> !r.Rejected? && HasKey(commands, f.group) && !Get(commands, f.group).value.JObj?
    ensures r.Saved? ==> Get(r.doc, f.group).Some? && Get(r.doc, f.group).value.JObj?
                         && Get(Get(r.doc, f.group).value.fields, f.name) == Some(JObj(CommandData(f)))
    ensures r.Saved? ==> forall k :: k != f.group ==> Get(r.doc, k) == Get(commands, k)
    ensures r.Saved? && HasKey(commands, f.group) ==>
              forall k :: k != f.name ==>
                Get(Get(r.doc, f.group).value.fields, k) == Get(Get(commands, f.group).value.fields, k)
    ensures r.Saved? && !HasKey(commands, f.group) ==> Get(r.doc, f.group) == Some(JObj([(f.name, JObj(CommandData(f)))]))
    ensures r.Saved? ==> GroupChoices(r.doc) == if HasKey(commands, f.group) then GroupChoices(commands)
                                                 else GroupChoices(commands) + [f.group]
  {
    if f.group == "" || f.name == "" || f.command == "" then Rejected
    else
      var cmds := if !HasKey(commands, f.group) then Put(commands, f.group, JObj([])) else commands;
      GetPutAll(commands, f.group, JObj([]));
      KeysPut(commands, f.group, JObj([]));
      var group := Get(cmds, f.group).value;
      if !group.JObj? then Raises
      else
        var data := JObj(CommandData(f));
        GetPutAll(group.fields, f.name, data);
        GetPutAll(cmds, f.group, JObj(Put(group.fields, f.name, data)));
        KeysPut(cmds, f.group, JObj(Put(group.fields, f.name, data)));
        Saved(Put(cmds, f.group, JObj(Put(group.fields, f.name, data))))
  }

  /** `create_command` on the freshly loaded tree. */
  method CreateCommand(commands: Fields, f: Form) returns (r: CreateOutcome)
    ensures r == Creation(commands, f)
  {
    if f.group == "" || f.name == "" || f.command == "" {
      return Rejected;
    }
    var cmdData := BuildCommandData(f);
    var cmds := commands;
    if !HasKey(cmds, f.group) {
      cmds := Put(cmds, f.group, JObj([]));
      GetPut(commands, f.group, JObj([]), f.group);
    }
    var group := Get(cmds, f.group).value;
    assert Creation(commands, f)
           == if !group.JObj? then Raises else Saved(Put(cmds, f.group, JObj(Put(group.fields, f.name, JObj(cmdData)))));
    if !group.JObj? {
      return Raises;
    }
    cmds := Put(cmds, f.group, JObj(Put(group.fields, f.name, JObj(cmdData))));
    return Saved(cmds);
  }

  /** Creating a second time with the same form hands back the same tree:
      the operation is idempotent. */
  lemma CreateTwice(commands: Fields, f: Form)
    requires Creation(commands, f).Saved?
    ensures Creation(Creation(commands, f).doc, f) == Creation(commands, f)
  {
    var once := Creation(commands, f).doc;
    var g1 := Get(once, f.group).value.fields;
    PutSame(g1, f.name, JObj(CommandData(f)));
    PutSame(once, f.group, JObj(g1));
  }

  /** Storing the value a key already holds changes nothing. */
  lemma {:induction false} PutSame(fs: Fields, k: string, v: Json)
    requires Get(fs, k) == Some(v)
    ensures Put(fs, k, v) == fs
  {
    if fs[0].0 != k {
      PutSame(fs[1..], k, v);
    }
  }

  /** A created command is listed by the tray under its group, with the
      flags and the prompt the form gave. */
  lemma CreatedCommandIsListed(commands: Fields, f: Form)
    requires Creation(commands, f).Saved? && f.name != "icon"
    ensures CommandRecord(f.group, f.name, JStr(f.command), JBool(f.confirm), JBool(f.showOutput),
                          if f.promptChecked && f.prompt != "" then JStr(f.prompt) else JNull)
            in AllCommands(Creation(commands, f).doc)
  {
    var doc := Creation(commands, f).doc;
    var group := Get(doc, f.group).value;
    var data := CommandData(f);
    var j :| 0 <= j < |doc| && doc[j] == (f.group, group);
    var i :| 0 <= i < |group.fields| && group.fields[i] == (f.name, JObj(data));
    FlattenComplete(f.group, group.fields, i);
    AllCommandsComplete(doc, j);
  }
}
