/** The configuration manager as an object: the files it reads and writes and
    the three caches are its fields, and each operation updates them step by
    step. Every method is proved to leave the object in the state, and to
    return the result, that the matching function of StoreSpec computes, so
    the lemmas of StoreLaws hold of the object. */
module ConfigStore {
  import opened Wrappers
  import opened JsonDoc
  import opened Text
  import opened Validation
  import opened HistoryRules
  import opened BackupNames
  import opened StoreSpec
  import opened StoreLaws

  /** The walk `current = current.get(part, {})` over `parts`; None when a
      step meets something that is not a mapping. */
  method WalkPath(tree: Json, parts: seq<string>) returns (r: Option<Json>)
    ensures r == WalkDefault(tree, parts)
  {
    var cur := tree;
    var i := 0;
    while i < |parts|
      invariant 0 <= i <= |parts|
      invariant WalkDefault(tree, parts) == WalkDefault(cur, parts[i..])
    {
      if !cur.JObj? {
        return None;
      }
      assert parts[i..][1..] == parts[i + 1..];
      cur := GetOr(cur.fields, parts[i], JObj([]));
      i := i + 1;
    }
    return Some(cur);
  }

  /** `for k, v in pairs: target[k] = v`; None when the first assignment
      raises because the target is not a mapping. */
  method AssignAll(target: Json, pairs: Fields) returns (r: Option<Json>)
    ensures r == MergeInto(target, pairs)
  {
    var cur := target;
    var i := 0;
    while i < |pairs|
      invariant 0 <= i <= |pairs|
      invariant MergeInto(target, pairs) == MergeInto(cur, pairs[i..])
    {
      if !cur.JObj? {
        return None;
      }
      assert pairs[i..][1..] == pairs[i + 1..];
      cur := JObj(Put(cur.fields, pairs[i].0, pairs[i].1));
      i := i + 1;
    }
    return Some(cur);
  }

  /** The conflict scan of `import_command_group`: the imported group names
      that are already groups of the tree, unless overwriting. */
  method FindConflicts(tree: Fields, incoming: Fields, overwrite: bool) returns (conflicts: seq<string>)
    ensures forall k :: k in conflicts <==> !overwrite && k in Keys(incoming) && HasKey(tree, k)
    ensures conflicts == [] <==> !(Conflicts(tree, incoming) && !overwrite)
  {
    conflicts := [];
    var i := 0;
    while i < |incoming|
      invariant 0 <= i <= |incoming|
      invariant forall k :: k in conflicts <==> !overwrite && k in Keys(incoming[..i]) && HasKey(tree, k)
    {
      assert Keys(incoming[..i + 1]) == Keys(incoming[..i]) + [incoming[i].0];
      if HasKey(tree, incoming[i].0) && !overwrite {
        conflicts := conflicts + [incoming[i].0];
      }
      i := i + 1;
    }
    assert incoming[..i] == incoming;
    if Conflicts(tree, incoming) && !overwrite {
      var j :| 0 <= j < |incoming| && HasKey(tree, incoming[j].0);
      assert incoming[j].0 in Keys(incoming);
    }
    if conflicts != [] {
      assert conflicts[0] in conflicts;
      var j :| 0 <= j < |incoming| && Keys(incoming)[j] == conflicts[0];
      assert HasKey(tree, incoming[j].0);
    }
  }

  /** The loop of `list_backups` over the sorted names: each name's path in
      the backup directory with its formatted timestamp. */
  method PairWithStamps(dir: string, names: seq<string>) returns (backups: seq<(string, string)>)
    ensures backups == seq(|names|, i requires 0 <= i < |names| => (dir + "/" + names[i], FormatStamp(names[i])))
  {
    backups := [];
    var i := 0;
    while i < |names|
      invariant 0 <= i <= |names|
      invariant |backups| == i
      invariant forall j :: 0 <= j < i ==> backups[j] == (dir + "/" + names[j], FormatStamp(names[j]))
    {
      backups := backups + [(dir + "/" + names[i], FormatStamp(names[i]))];
      i := i + 1;
    }
  }

  class ConfigManager {
    const env: Env
    var files: Files
    var commandsCache: Option<Json>
    var historyCache: Option<Json>
    var favoritesCache: Option<Json>

    /** The object's state as a StoreSpec snapshot. */
    function State(): Store
      reads this
    {
      Store(files, commandsCache, historyCache, favoritesCache)
    }

    /** The class invariant: a cached command tree has passed validation. */
    ghost predicate Valid()
      reads this
    {
      Inv(State())
    }

    /** `__init__`: empty caches, then the favorites migration. */
    constructor (env: Env, files: Files, stamp: string)
      ensures this.env == env
      ensures State() == Migrate(env, Store(files, None, None, None), stamp).0
      ensures Valid()
    {
      this.env := env;
      this.files := files;
      commandsCache := None;
      historyCache := None;
      favoritesCache := None;
      new;
      var _ := MigrateFavoritesFromCommands(stamp);
    }

    /** `_create_default_commands`: a failed write is swallowed. */
    method CreateDefaultCommands(path: string)
      modifies this
      ensures files == WriteOrKeep(env, old(files), path, JsonText(DefaultCommands(env.isWindows)))
      ensures commandsCache == old(commandsCache) && historyCache == old(historyCache)
      ensures favoritesCache == old(favoritesCache)
    {
      if path !in env.unwritable {
        files := files[path := JsonText(DefaultCommands(env.isWindows))];
      }
    }

    method GetCommands(refresh: bool) returns (r: Result<Json, ConfigError>)
      requires Valid()
      modifies this
      ensures (State(), r) == StoreSpec.GetCommands(env, old(State()), refresh)
      ensures Valid()
    {
      if commandsCache.Some? && !refresh {
        return Success(commandsCache.value);
      }
      var path := ReadTarget(env, files);
      if path !in files {
        CreateDefaultCommands(path);
      }
      if path !in files {
        return Failure(FileMissing(path));
      }
      match files[path]
      case NotJson =>
        return Failure(InvalidJson(path));
      case JsonText(doc) =>
        var e := Validate(doc);
        if e.Some? {
          return Failure(Invalid(e.value));
        }
        commandsCache := Some(doc);
        return Success(doc);
    }

    method BackupCommands(stamp: string) returns (path: string)
      modifies this
      ensures (files, path) == Backup(env, old(files), stamp)
      ensures commandsCache == old(commandsCache) && historyCache == old(historyCache)
      ensures favoritesCache == old(favoritesCache)
    {
      var live := LiveFile(env);
      if live !in files {
        return "";
      }
      var dst := BackupFile(env, stamp);
      if dst in env.unwritable {
        return "";
      }
      files := files[dst := files[live]];
      return dst;
    }

    method SaveCommands(doc: Json, stamp: string) returns (err: Option<ConfigError>)
      requires Valid()
      modifies this
      ensures (State(), err) == StoreSpec.SaveCommands(env, old(State()), doc, stamp)
      ensures Valid()
    {
      var e := Validate(doc);
      if e.Some? {
        return Some(Invalid(e.value));
      }
      var _ := BackupCommands(stamp);
      var live := LiveFile(env);
      if live in env.unwritable {
        return Some(WriteFailed(live));
      }
      files := files[live := JsonText(doc)];
      commandsCache := Some(doc);
      return None;
    }

    method GetHistory(refresh: bool) returns (h: Json)
      modifies this
      ensures (State(), h) == StoreSpec.GetHistory(env, old(State()), refresh)
    {
      if historyCache.Some? && !refresh {
        return historyCache.value;
      }
      var path := HistoryFile(env);
      if path in files && files[path].JsonText? {
        h := files[path].doc;
      } else {
        h := JArr([]);
      }
      historyCache := Some(h);
    }

    method SaveHistory(h: Json)
      modifies this
      ensures State() == StoreSpec.SaveHistory(env, old(State()), h)
    {
      var path := HistoryFile(env);
      if path !in env.unwritable {
        files := files[path := JsonText(h)];
        historyCache := Some(h);
      }
    }

    method AddToHistory(entry: Fields) returns (r: Option<seq<Fields>>)
      requires Valid()
      modifies this
      ensures (State(), r) == StoreSpec.AddToHistory(env, old(State()), entry)
      ensures Valid()
    {
      var h := GetHistory(false);
      var items := ConfigItems(h);
      if items.None? {
        return None;
      }
      var updated := Prepend(items.value, entry);
      SaveHistory(ToJson(updated));
      return Some(updated);
    }

    method ClearHistory()
      requires Valid()
      modifies this
      ensures State() == StoreSpec.ClearHistory(env, old(State()))
      ensures Valid()
    {
      SaveHistory(JArr([]));
    }

    method GetFavorites(refresh: bool) returns (f: Json)
      modifies this
      ensures (State(), f) == StoreSpec.GetFavorites(env, old(State()), refresh)
    {
      if favoritesCache.Some? && !refresh {
        return favoritesCache.value;
      }
      var path := FavoritesFile(env);
      if path in files && files[path].JsonText? {
        f := files[path].doc;
      } else {
        f := JObj([]);
      }
      favoritesCache := Some(f);
    }

    method SaveFavorites(f: Json)
      modifies this
      ensures State() == StoreSpec.SaveFavorites(env, old(State()), f)
    {
      var path := FavoritesFile(env);
      if path !in env.unwritable {
        files := files[path := JsonText(f)];
        favoritesCache := Some(f);
      }
    }

    /** `list_backups`, given what listing the backups directory returned
      (None when it raised). */
    method ListBackups(listing: Option<seq<string>>) returns (backups: seq<(string, string)>)
      ensures backups == BackupListing(env, listing)
    {
      if listing.None? {
        return [];
      }
      var names := SortDesc(BackupEntries(listing.value));
      backups := PairWithStamps(BackupDir(env), names);
    }

    method RestoreFromBackup(backupFile: string, stamp: string) returns (ok: bool)
      requires Valid()
      modifies this
      ensures (State(), ok) == Restore(env, old(State()), backupFile, stamp)
      ensures Valid()
    {
      var _ := BackupCommands(stamp);
      var live := LiveFile(env);
      if backupFile !in files || backupFile == live || live in env.unwritable {
        return false;
      }
      files := files[live := files[backupFile]];
      commandsCache := None;
      return true;
    }

    /** `import_command_group`, merging into a copy of the cached tree. */
    method ImportCommandGroup(importFile: string, overwrite: bool, stamp: string) returns (ok: bool)
      requires Valid()
      modifies this
      ensures (State(), ok) == Import(env, old(State()), importFile, overwrite, stamp)
      ensures Valid()
    {
      if importFile !in files || !files[importFile].JsonText? || !files[importFile].doc.JObj? {
        return false;
      }
      var incoming := files[importFile].doc.fields;
      var res := GetCommands(false);
      if res.Failure? {
        return false;
      }
      var conflicts := FindConflicts(res.value.fields, incoming, overwrite);
      if conflicts != [] {
        return false;
      }
      var merged := AssignAll(res.value, incoming);
      var err := SaveCommands(merged.value, stamp);
      return err.None?;
    }

    method ExportCommandGroup(group: string, exportFile: string) returns (ok: bool)
      requires Valid()
      modifies this
      ensures (State(), ok) == Export(env, old(State()), group, exportFile)
      ensures Valid()
    {
      var res := GetCommands(false);
      if res.Failure? {
        return false;
      }
      var tree := res.value.fields;
      if !HasKey(tree, group) || exportFile in env.unwritable {
        return false;
      }
      files := files[exportFile := JsonText(JObj([(group, Get(tree, group).value)]))];
      return true;
    }

    method AddToFavorites(path: string, custom: Option<string>) returns (ok: bool)
      requires Valid()
      modifies this
      ensures (State(), ok) == AddFavorite(env, old(State()), path, custom)
      ensures Valid()
    {
      var res := GetCommands(false);
      if res.Failure? {
        return false;
      }
      var parts := Split(path, '.');
      if |parts| < 2 {
        return false;
      }
      var cur := WalkPath(res.value, parts[..|parts| - 1]);
      if cur.None? || !cur.value.JObj? {
        return false;
      }
      var target := Get(cur.value.fields, parts[|parts| - 1]);
      if !(target.Some? && IsCommandNode(target.value)) {
        return false;
      }
      var name := FavoriteLabel(custom, parts);
      var fav := GetFavorites(false);
      if !fav.JObj? {
        return false;
      }
      var nf := JObj(Put(fav.fields, name, RefEntry(path)));
      favoritesCache := Some(nf);
      SaveFavorites(nf);
      return true;
    }

    method RemoveFromFavorites(name: string) returns (ok: bool)
      requires Valid()
      modifies this
      ensures (State(), ok) == RemoveFavorite(env, old(State()), name)
      ensures Valid()
    {
      var fav := GetFavorites(false);
      if !(fav.JObj? && HasKey(fav.fields, name)) {
        return false;
      }
      var nf := JObj(Delete(fav.fields, name));
      favoritesCache := Some(nf);
      SaveFavorites(nf);
      return true;
    }

    method MigrateFavoritesFromCommands(stamp: string) returns (ok: bool)
      requires Valid()
      modifies this
      ensures (State(), ok) == Migrate(env, old(State()), stamp)
      ensures Valid()
    {
      var res := GetCommands(false);
      if res.Failure? {
        return false;
      }
      var tree := res.value.fields;
      if !HasKey(tree, "Favorites") {
        return true;
      }
      ValidGroupIsObject(tree, "Favorites");
      var group := Get(tree, "Favorites").value.fields;
      if KeyCount(group) <= 1 {
        return true;
      }
      var moving := Delete(group, "icon");
      var fav := GetFavorites(false);
      var nf := AssignAll(fav, moving);
      if nf.None? {
        return false;
      }
      favoritesCache := nf;
      SaveFavorites(nf.value);
      var newTree := JObj(Delete(tree, "Favorites"));
      DeleteKeepsValid(tree, "Favorites");
      commandsCache := Some(newTree);
      var err := SaveCommands(newTree, stamp);
      return err.None?;
    }
  }
}
