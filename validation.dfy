/** The structural check `ConfigManager._validate_commands` applies to a
    command tree on every load and every save. It looks at the root, at each
    top-level group and at the direct items of each group, and stops at the
    first problem. Nested groups are not entered, items without "command" are
    not looked at, and the "icon" entry is skipped. */
module Validation {
  import opened Wrappers
  import opened JsonDoc

  /** Which check raised `ConfigurationError`, with the names the message
      carries. */
  datatype ValidationError =
    | RootNotObject
    | GroupNotObject(group: string)
    | CommandNotString(group: string, item: string)
    | ShowOutputNotBool(group: string, item: string)
    | ConfirmNotBool(group: string, item: string)
    | PromptNotString(group: string, item: string)

  /** The type checks on one command entry, in the order the source makes
      them. */
  function CheckEntry(group: string, name: string, entry: Fields): Option<ValidationError>
    requires HasKey(entry, "command")
  {
    if !Get(entry, "command").value.JStr? then Some(CommandNotString(group, name))
    else if HasKey(entry, "showOutput") && !Get(entry, "showOutput").value.JBool? then Some(ShowOutputNotBool(group, name))
    else if HasKey(entry, "confirm") && !Get(entry, "confirm").value.JBool? then Some(ConfirmNotBool(group, name))
    else if HasKey(entry, "prompt") && !Get(entry, "prompt").value.JStr? then Some(PromptNotString(group, name))
    else None
  }

  /** The first failing direct item of a group, scanning in order. */
  function CheckItems(group: string, items: Fields): Option<ValidationError> {
    if items == [] then None
    else
      var (name, item) := items[0];
      if name != "icon" && IsCommandNode(item) && CheckEntry(group, name, item.fields).Some? then
        CheckEntry(group, name, item.fields)
      else CheckItems(group, items[1..])
  }

  /** The first failing group of the tree, scanning in order. */
  function CheckGroups(groups: Fields): Option<ValidationError> {
    if groups == [] then None
    else
      var (name, items) := groups[0];
      if !items.JObj? then Some(GroupNotObject(name))
      else if CheckItems(name, items.fields).Some? then CheckItems(name, items.fields)
      else CheckGroups(groups[1..])
  }

  /** `_validate_commands`: None when the tree passes, else the first failure. */
  function Validate(tree: Json): Option<ValidationError> {
    if !tree.JObj? then Some(RootNotObject) else CheckGroups(tree.fields)
  }

  // ---------------------------------------------------------------------
  // An independent, declarative statement of what passes.

  /** A direct item of a group that the check accepts. */
  predicate ItemOk(name: string, item: Json) {
    name == "icon" || !IsCommandNode(item) ||
    (Get(item.fields, "command").value.JStr?
     && (HasKey(item.fields, "showOutput") ==> Get(item.fields, "showOutput").value.JBool?)
     && (HasKey(item.fields, "confirm") ==> Get(item.fields, "confirm").value.JBool?)
     && (HasKey(item.fields, "prompt") ==> Get(item.fields, "prompt").value.JStr?))
  }

  predicate GroupOk(group: Json) {
    group.JObj? && forall i :: 0 <= i < |group.fields| ==> ItemOk(group.fields[i].0, group.fields[i].1)
  }

  /** A tree the check accepts: a mapping of mappings whose command items are
      well typed. */
  predicate TreeOk(tree: Json) {
    tree.JObj? && forall i :: 0 <= i < |tree.fields| ==> GroupOk(tree.fields[i].1)
  }

  lemma CheckEntryOk(group: string, name: string, item: Json)
    requires IsCommandNode(item) && name != "icon"
    ensures CheckEntry(group, name, item.fields).None? <==> ItemOk(name, item)
  {
  }

  lemma {:induction false} CheckItemsOk(group: string, items: Fields)
    ensures CheckItems(group, items).None? <==> GroupOk(JObj(items))
  {
    if items != [] {
      CheckItemsOk(group, items[1..]);
      var (name, item) := items[0];
      if name != "icon" && IsCommandNode(item) {
        CheckEntryOk(group, name, item);
      }
      assert forall i :: 1 <= i < |items| ==> items[i] == items[1..][i - 1];
    }
  }

  lemma {:induction false} CheckGroupsOk(groups: Fields)
    ensures CheckGroups(groups).None? <==> TreeOk(JObj(groups))
  {
    if groups != [] {
      CheckGroupsOk(groups[1..]);
      var (name, items) := groups[0];
      if items.JObj? {
        CheckItemsOk(name, items.fields);
      }
      assert forall i :: 1 <= i < |groups| ==> groups[i] == groups[1..][i - 1];
    }
  }

  /** The check passes exactly on the trees described by TreeOk. */
  lemma ValidateMeansTreeOk(tree: Json)
    ensures Validate(tree).None? <==> TreeOk(tree)
  {
    if tree.JObj? {
      CheckGroupsOk(tree.fields);
    }
  }

  /** The group a failure names is a top-level key of the tree. */
  lemma {:induction false} FailureNamesGroup(groups: Fields)
    requires CheckGroups(groups).Some? && !CheckGroups(groups).value.RootNotObject?
    ensures HasKey(groups, CheckGroups(groups).value.group)
  {
    var (name, items) := groups[0];
    if !items.JObj? || CheckItems(name, items.fields).Some? {
      if items.JObj? {
        ItemsNameGroup(name, items.fields);
      }
      assert Keys(groups)[0] == name;
    } else {
      FailureNamesGroup(groups[1..]);
      assert Keys(groups) == [name] + Keys(groups[1..]);
    }
  }

  lemma {:induction false} ItemsNameGroup(group: string, items: Fields)
    requires CheckItems(group, items).Some?
    ensures !CheckItems(group, items).value.RootNotObject?
    ensures !CheckItems(group, items).value.GroupNotObject?
    ensures CheckItems(group, items).value.group == group
  {
    var (name, item) := items[0];
    if !(name != "icon" && IsCommandNode(item) && CheckEntry(group, name, item.fields).Some?) {
      ItemsNameGroup(group, items[1..]);
    }
  }

  /** Nested groups are not entered: a badly typed command two levels down
      passes. */
  lemma NestedNotChecked()
    ensures Validate(JObj([("Sys", JObj([("Sub", JObj([("Run", JObj([("command", JNum(1))]))]))]))])).None?
  {
  }

  /** Items without "command" are not looked at. */
  lemma ItemsWithoutCommandPass()
    ensures Validate(JObj([("Sys", JObj([("Run", JObj([("confirm", JStr("yes"))]))]))])).None?
  {
  }

  /** The same item with a "command" is type checked and its names reported. */
  lemma CommandItemChecked()
    ensures Validate(JObj([("Sys", JObj([("Run", JObj([("command", JStr("ls")), ("confirm", JStr("yes"))]))]))]))
            == Some(ConfirmNotBool("Sys", "Run"))
  {
  }
}
