/** The older favorites feature: favorites are copies of command entries
    kept in a "Favorites" group of the command tree itself. Each operation
    loads the tree, edits it and hands it to the application to save; the
    loaded tree is a parameter here and the edited tree the result. */
module LegacyFavorites {
  import opened Wrappers
  import opened JsonDoc
  import opened TrayCore
  import opened StoreSpec
  import opened StoreLaws

  const FavoritesGroup: string := "Favorites"

  /** The name a favorite is stored under. */
  function FavoriteName(group: string, name: string): (r: string)
    ensures group == "" ==> r == name
    ensures group != "" ==> r == SubGroup(group, name)
  {
    if group != "" then group + " → " + name else name
  }

  /** `add_to_favorites(group, label, command_data)`: creates the group with
      only an icon when it is missing, then stores the data under the
      favorite's name, replacing a favorite of that name. None where the
      assignment raises because "Favorites" is not a mapping. */
  method AddToFavorites(commands: Fields, group: string, name: string, data: Json, defaultIcon: string)
    returns (r: Option<Fields>)
    ensures r.None? <==> HasKey(commands, FavoritesGroup) && !Get(commands, FavoritesGroup).value.JObj?
    ensures r.Some? ==>
              Get(r.value, FavoritesGroup).Some? && Get(r.value, FavoritesGroup).value.JObj?
              && Get(Get(r.value, FavoritesGroup).value.fields, FavoriteName(group, name)) == Some(data)
    ensures r.Some? ==> forall k :: k != FavoritesGroup ==> Get(r.value, k) == Get(commands, k)
    ensures r.Some? && !HasKey(commands, FavoritesGroup) ==>
              Get(r.value, FavoritesGroup) == Some(JObj(Put([("icon", JStr(defaultIcon))], FavoriteName(group, name), data)))
    ensures r.Some? && HasKey(commands, FavoritesGroup) ==>
              forall k :: k != FavoriteName(group, name) ==>
                Get(Get(r.value, FavoritesGroup).value.fields, k) == Get(Get(commands, FavoritesGroup).value.fields, k)
  {
    var cmds := commands;
    if !HasKey(cmds, FavoritesGroup) {
      cmds := Put(cmds, FavoritesGroup, JObj([("icon", JStr(defaultIcon))]));
      GetPut(commands, FavoritesGroup, JObj([("icon", JStr(defaultIcon))]), FavoritesGroup);
    }
    var favoriteName := if group != "" then group + " → " + name else name;
    var favorites := Get(cmds, FavoritesGroup).value;
    if !favorites.JObj? {
      return None;
    }
    var updated := Put(cmds, FavoritesGroup, JObj(Put(favorites.fields, favoriteName, data)));
    GetPut(favorites.fields, favoriteName, data, favoriteName);
    GetPut(cmds, FavoritesGroup, JObj(Put(favorites.fields, favoriteName, data)), FavoritesGroup);
    forall k | k != FavoritesGroup
      ensures Get(updated, k) == Get(commands, k)
    {
      GetPut(cmds, FavoritesGroup, JObj(Put(favorites.fields, favoriteName, data)), k);
      GetPut(commands, FavoritesGroup, JObj([("icon", JStr(defaultIcon))]), k);
    }
    forall k | k != favoriteName
      ensures Get(Put(favorites.fields, favoriteName, data), k) == Get(favorites.fields, k)
    {
      GetPut(favorites.fields, favoriteName, data, k);
    }
    return Some(updated);
  }

  /** A favorite this module stored in the "Favorites" group, next to the
      group's icon, is carried over by the store's migration: afterwards
      the favorites read it under the same name and the group is gone from
      the cached tree. */
  lemma StoredFavoriteMigrates(env: Env, st: Store, stamp: string, name: string, data: Json)
    requires Inv(st)
    requires GetCommands(env, st, false).1.Success?
    requires var tree := GetCommands(env, st, false).1.value.fields;
             HasKey(tree, FavoritesGroup) && Get(tree, FavoritesGroup).value.JObj?
             && DistinctKeys(Get(tree, FavoritesGroup).value.fields)
             && HasKey(Get(tree, FavoritesGroup).value.fields, "icon")
             && name != "icon" && Get(Get(tree, FavoritesGroup).value.fields, name) == Some(data)
    requires GetFavorites(env, GetCommands(env, st, false).0, false).1.JObj?
    ensures var st1 := Migrate(env, st, stamp).0;
            st1.favorites.Some? && st1.favorites.value.JObj?
            && Get(st1.favorites.value.fields, name) == Some(data)
            && st1.commands == Some(JObj(Delete(GetCommands(env, st, false).1.value.fields, FavoritesGroup)))
  {
    var group := Get(GetCommands(env, st, false).1.value.fields, FavoritesGroup).value.fields;
    KeyCountDistinct(group);
    var i :| 0 <= i < |group| && group[i] == (name, Get(group, name).value);
    var j :| 0 <= j < |group| && Keys(group)[j] == "icon";
    assert i != j;
    assert KeyCount(group) > 1;
    MigrateOutcome(env, st, stamp);
  }

  /** What `remove_from_favorites(label)` leads to. */
  datatype RemoveOutcome =
    | Unchanged              // nothing to remove; nothing is saved
    | Saved(doc: Fields)     // the tree handed back for saving
    | Raises                 // `in` or `del` on a value that is not a mapping

  /** `remove_from_favorites(label)`. Python's `in` on a non-mapping value
      tests a substring (text) or an element (list) and raises otherwise;
      `del` then raises on either. */
  method RemoveFromFavorites(commands: Fields, name: string) returns (r: RemoveOutcome)
    ensures !HasKey(commands, FavoritesGroup) ==> r == Unchanged
    ensures HasKey(commands, FavoritesGroup) && Get(commands, FavoritesGroup).value.JObj? ==>
              var fav := Get(commands, FavoritesGroup).value.fields;
              (r == Unchanged <==> !HasKey(fav, name))
              && (r.Saved? ==> Get(r.doc, FavoritesGroup) == Some(JObj(Delete(fav, name))))
              && !r.Raises?
    ensures r.Saved? ==> forall k :: k != FavoritesGroup ==> Get(r.doc, k) == Get(commands, k)
  {
    if !HasKey(commands, FavoritesGroup) {
      return Unchanged;
    }
    var favorites := Get(commands, FavoritesGroup).value;
    match favorites
    case JObj(fav) =>
      if HasKey(fav, name) {
        var doc := Put(commands, FavoritesGroup, JObj(Delete(fav, name)));
        GetPut(commands, FavoritesGroup, JObj(Delete(fav, name)), FavoritesGroup);
        forall k | k != FavoritesGroup
          ensures Get(doc, k) == Get(commands, k)
        {
          GetPut(commands, FavoritesGroup, JObj(Delete(fav, name)), k);
        }
        return Saved(doc);
      }
      return Unchanged;
    case JStr(s) =>
      return if Text.Contains(s, name) then Raises else Unchanged;
    case JArr(items) =>
      return if JStr(name) in items then Raises else Unchanged;
    case _ =>
      return Raises;
  }

  /** Only that favorite goes; the others and their order stay. */
  lemma RemoveOnlyThat(fav: Fields, name: string, k: string)
    ensures Get(Delete(fav, name), k) == if k == name then None else Get(fav, k)
  {
    GetDelete(fav, name, k);
  }

  // ---------------------------------------------------------------------
  // The favorites menu.

  /** Python's `len` of a value; None where it raises. */
  function Length(j: Json): Option<nat> {
    match j
    case JObj(fs) => Some(KeyCount(fs))
    case JStr(s) => Some(|s|)
    case JArr(xs) => Some(|xs|)
    case _ => None
  }

  /** One entry of the favorites menu. */
  datatype FavoriteEntry = FavoriteEntry(name: string, command: Json, showOutput: Json, confirm: Json, prompt: Json, icon: Json)

  /** What `populate_favorites_menu` shows. */
  datatype FavoritesMenu =
    | NoFavorites                     // the "No Favorites" placeholder
    | Listed(entries: seq<FavoriteEntry>)
    | MenuFails                       // `len` or `.items()` raises

  /** The entry one item of the group gives: a mapping with "command", the
      "icon" key skipped, with the source's defaults. */
  function EntryOf(name: string, item: Json, defaultIcon: string): (r: seq<FavoriteEntry>)
    ensures |r| <= 1
    ensures r != [] <==> name != "icon" && IsCommandNode(item)
    ensures r != [] ==> r[0].name == name && Some(r[0].command) == Get(item.fields, "command")
  {
    if name != "icon" && IsCommandNode(item) then
      [FavoriteEntry(name, Get(item.fields, "command").value, GetOr(item.fields, "showOutput", JBool(false)),
                     GetOr(item.fields, "confirm", JBool(false)), GetOr(item.fields, "prompt", JNull),
                     GetOr(item.fields, "icon", JStr(defaultIcon)))]
    else []
  }

  /** The entries for the favorites' items, in the group's order. */
  function EntriesOf(items: Fields, defaultIcon: string): seq<FavoriteEntry>
    decreases |items|
  {
    if items == [] then []
    else EntryOf(items[0].0, items[0].1, defaultIcon) + EntriesOf(items[1..], defaultIcon)
  }

  /** One step of the listing. */
  lemma EntriesFrom(items: Fields, i: int, defaultIcon: string)
    requires 0 <= i < |items|
    ensures EntriesOf(items[i..], defaultIcon)
            == EntryOf(items[i].0, items[i].1, defaultIcon) + EntriesOf(items[i + 1..], defaultIcon)
  {
    assert items[i..][0] == items[i] && items[i..][1..] == items[i + 1..];
  }

  /** A group with at most one key counts as empty (that key being taken
      for the icon). */
  function FavoritesMenuOf(commands: Fields, defaultIcon: string): FavoritesMenu {
    if !HasKey(commands, FavoritesGroup) then NoFavorites
    else
      var fav := Get(commands, FavoritesGroup).value;
      var n := Length(fav);
      if n.None? then MenuFails
      else if n.value <= 1 then NoFavorites
      else if !fav.JObj? then MenuFails
      else Listed(EntriesOf(fav.fields, defaultIcon))
  }

  /** The loop of `populate_favorites_menu` over the favorites. */
  method PopulateFavoritesMenu(commands: Fields, defaultIcon: string) returns (menu: FavoritesMenu)
    ensures menu == FavoritesMenuOf(commands, defaultIcon)
  {
    if !HasKey(commands, FavoritesGroup) {
      return NoFavorites;
    }
    var fav := Get(commands, FavoritesGroup).value;
    var n := Length(fav);
    if n.None? {
      return MenuFails;
    }
    if n.value <= 1 {
      return NoFavorites;
    }
    if !fav.JObj? {
      return MenuFails;
    }
    var items := fav.fields;
    var entries: seq<FavoriteEntry> := [];
    var i := 0;
    while i < |items|
      invariant 0 <= i <= |items|
      invariant EntriesOf(items, defaultIcon) == entries + EntriesOf(items[i..], defaultIcon)
    {
      ghost var before := entries;
      var (name, item) := items[i];
      EntriesFrom(items, i, defaultIcon);
      var step: seq<FavoriteEntry> := [];
      if name != "icon" && item.JObj? && HasKey(item.fields, "command") {
        step := [FavoriteEntry(name, Get(item.fields, "command").value, GetOr(item.fields, "showOutput", JBool(false)),
                               GetOr(item.fields, "confirm", JBool(false)), GetOr(item.fields, "prompt", JNull),
                               GetOr(item.fields, "icon", JStr(defaultIcon)))];
      }
      assert step == EntryOf(name, item, defaultIcon);
      entries := entries + step;
      Assoc(before, step, EntriesOf(items[i + 1..], defaultIcon));
      i := i + 1;
    }
    assert items[i..] == [];
    return Listed(entries);
  }

  /** Every listed entry is a command mapping of the group other than
      "icon", in the group's order. */
  lemma {:induction false} EntriesAreCommands(items: Fields, defaultIcon: string)
    ensures forall e :: e in EntriesOf(items, defaultIcon) ==>
              e.name != "icon" && exists i :: 0 <= i < |items| && items[i].0 == e.name && IsCommandNode(items[i].1)
    decreases |items|
  {
    if items != [] {
      EntriesAreCommands(items[1..], defaultIcon);
      forall e | e in EntriesOf(items, defaultIcon)
        ensures e.name != "icon" && exists i :: 0 <= i < |items| && items[i].0 == e.name && IsCommandNode(items[i].1)
      {
        if e !in EntriesOf(items[1..], defaultIcon) {
          assert e in EntryOf(items[0].0, items[0].1, defaultIcon);
          assert items[0].0 == e.name && IsCommandNode(items[0].1);
        } else {
          var i :| 0 <= i < |items[1..]| && items[1..][i].0 == e.name && IsCommandNode(items[1..][i].1);
          assert items[i + 1] == items[1..][i];
        }
      }
    }
  }

  /** A group holding one favorite and no icon shows as empty. */
  lemma OneFavoriteWithoutIconIsHidden(name: string, entry: Fields, defaultIcon: string)
    requires HasKey(entry, "command")
    ensures FavoritesMenuOf([(FavoritesGroup, JObj([(name, JObj(entry))]))], defaultIcon) == NoFavorites
  {
  }

  // ---------------------------------------------------------------------
  // The context menu's request.

  /** The mapping a record of `get_all_commands` is in the source. */
  function RecordFields(r: CommandRecord): Fields {
    [("group", JStr(r.group)), ("label", JStr(r.name)), ("command", r.command),
     ("confirm", r.confirm), ("showOutput", r.showOutput), ("prompt", r.prompt)]
  }

  /** The command data `create_context_menu` passes, with its defaults. */
  function ContextData(info: Fields): (data: Json)
    ensures data.JObj? && Keys(data.fields) == ["command", "showOutput", "confirm", "prompt"]
  {
    JObj([("command", GetOr(info, "command", JStr(""))), ("showOutput", GetOr(info, "showOutput", JBool(false))),
          ("confirm", GetOr(info, "confirm", JBool(false))), ("prompt", GetOr(info, "prompt", JNull))])
  }

  /** The first pair decides a lookup of its own key; other keys go on. */
  lemma GetFront(fs: Fields, k: string)
    requires fs != []
    ensures Get(fs, k) == if fs[0].0 == k then Some(fs[0].1) else Get(fs[1..], k)
  {
  }

  /** Lookups in the four-key command data. */
  lemma DataLookups(c: Json, o: Json, f: Json, p: Json)
    ensures var d := [("command", c), ("showOutput", o), ("confirm", f), ("prompt", p)];
            Get(d, "command") == Some(c) && Get(d, "showOutput") == Some(o)
            && Get(d, "confirm") == Some(f) && Get(d, "prompt") == Some(p) && !HasKey(d, "icon")
  {
    var d := [("command", c), ("showOutput", o), ("confirm", f), ("prompt", p)];
    assert "command" != "confirm" by {
      assert "command"[2] != "confirm"[2];
    }
    var d1, d2, d3 := d[1..], d[2..], d[3..];
    assert d1[1..] == d2 && d2[1..] == d3 && d3[1..] == [];
    assert d[0].0 == "command" && d1[0].0 == "showOutput" && d2[0].0 == "confirm" && d3[0].0 == "prompt";
    GetFront(d, "showOutput");
    GetFront(d, "confirm");
    GetFront(d1, "confirm");
    GetFront(d, "prompt");
    GetFront(d1, "prompt");
    GetFront(d2, "prompt");
    GetFront(d, "icon");
    GetFront(d1, "icon");
    GetFront(d2, "icon");
    GetFront(d3, "icon");
  }

  /** Lookups in a record's mapping. */
  lemma RecordLookups(r: CommandRecord)
    ensures var info := RecordFields(r);
            Get(info, "command") == Some(r.command) && Get(info, "showOutput") == Some(r.showOutput)
            && Get(info, "confirm") == Some(r.confirm) && Get(info, "prompt") == Some(r.prompt)
  {
    var info := RecordFields(r);
    assert "command" != "confirm" by {
      assert "command"[2] != "confirm"[2];
    }
    var i1, i2, i3, i4, i5 := info[1..], info[2..], info[3..], info[4..], info[5..];
    assert i1[1..] == i2 && i2[1..] == i3 && i3[1..] == i4 && i4[1..] == i5;
    assert info[0].0 == "group" && i1[0].0 == "label" && i2[0].0 == "command"
           && i3[0].0 == "confirm" && i4[0].0 == "showOutput" && i5[0].0 == "prompt";
    assert i2[0].1 == r.command && i3[0].1 == r.confirm && i4[0].1 == r.showOutput && i5[0].1 == r.prompt;
    GetFront(info, "command");
    GetFront(i1, "command");
    GetFront(i2, "command");
    GetFront(info, "confirm");
    GetFront(i1, "confirm");
    GetFront(i2, "confirm");
    GetFront(i3, "confirm");
    GetFront(info, "showOutput");
    GetFront(i1, "showOutput");
    GetFront(i2, "showOutput");
    GetFront(i3, "showOutput");
    GetFront(i4, "showOutput");
    GetFront(info, "prompt");
    GetFront(i1, "prompt");
    GetFront(i2, "prompt");
    GetFront(i3, "prompt");
    GetFront(i4, "prompt");
    GetFront(i5, "prompt");
  }

  /** For a record the data copies its command, output, confirmation and
      prompt. */
  lemma ContextDataCopies(r: CommandRecord)
    ensures var d := ContextData(RecordFields(r)).fields;
            Get(d, "command") == Some(r.command) && Get(d, "showOutput") == Some(r.showOutput)
            && Get(d, "confirm") == Some(r.confirm) && Get(d, "prompt") == Some(r.prompt)
            && !HasKey(d, "icon")
  {
    RecordLookups(r);
    DataLookups(r.command, r.showOutput, r.confirm, r.prompt);
  }

  /** A fresh group is its icon followed by the one favorite. */
  lemma FreshGroupShape(data: Json, name: string, defaultIcon: string)
    requires name != "icon"
    ensures Put([("icon", JStr(defaultIcon))], name, data) == [("icon", JStr(defaultIcon)), (name, data)]
    ensures KeyCount([("icon", JStr(defaultIcon)), (name, data)]) == 2
  {
    var items := [("icon", JStr(defaultIcon)), (name, data)];
    assert Keys([("icon", JStr(defaultIcon))]) == ["icon"];
    assert items[1..] == [(name, data)] && items[1..][1..] == [];
    assert Keys(items[1..]) == [name];
    assert KeyCount(items[1..]) == 1;
  }

  /** The copied context data of a record lists as that record's entry. */
  lemma ContextEntry(r: CommandRecord, name: string, defaultIcon: string)
    requires name != "icon"
    ensures EntryOf(name, ContextData(RecordFields(r)), defaultIcon)
            == [FavoriteEntry(name, r.command, r.showOutput, r.confirm, r.prompt, JStr(defaultIcon))]
  {
    ContextDataCopies(r);
  }

  /** A fresh group with one favorite lists exactly that favorite. */
  lemma FreshGroupEntries(r: CommandRecord, name: string, defaultIcon: string)
    requires name != "icon"
    ensures var items := Put([("icon", JStr(defaultIcon))], name, ContextData(RecordFields(r)));
            KeyCount(items) == 2
            && EntriesOf(items, defaultIcon) == [FavoriteEntry(name, r.command, r.showOutput, r.confirm, r.prompt, JStr(defaultIcon))]
  {
    var data := ContextData(RecordFields(r));
    var items := [("icon", JStr(defaultIcon)), (name, data)];
    FreshGroupShape(data, name, defaultIcon);
    ContextEntry(r, name, defaultIcon);
    EntriesFrom(items, 0, defaultIcon);
    EntriesFrom(items, 1, defaultIcon);
    assert items[0..] == items && items[2..] == [];
  }

  /** Adding a record to a tree without favorites (the group
      `AddToFavorites` then creates), then listing the favorites, shows
      exactly that command under its favorite name. */
  lemma AddedRecordIsListed(r: CommandRecord, defaultIcon: string, doc: Fields)
    requires FavoriteName(r.group, r.name) != "icon"
    requires Get(doc, FavoritesGroup) == Some(JObj(Put([("icon", JStr(defaultIcon))], FavoriteName(r.group, r.name), ContextData(RecordFields(r)))))
    ensures FavoritesMenuOf(doc, defaultIcon)
            == Listed([FavoriteEntry(FavoriteName(r.group, r.name), r.command, r.showOutput, r.confirm, r.prompt, JStr(defaultIcon))])
  {
    var name := FavoriteName(r.group, r.name);
    FreshGroupEntries(r, name, defaultIcon);
    ListedGroup(doc, Put([("icon", JStr(defaultIcon))], name, ContextData(RecordFields(r))), defaultIcon);
  }

  /** A favorites group with two keys or more lists its entries. */
  lemma ListedGroup(doc: Fields, items: Fields, defaultIcon: string)
    requires Get(doc, FavoritesGroup) == Some(JObj(items)) && KeyCount(items) >= 2
    ensures FavoritesMenuOf(doc, defaultIcon) == Listed(EntriesOf(items, defaultIcon))
  {
    assert HasKey(doc, FavoritesGroup);
  }
}
