/** What each `ConfigManager` operation does, as functions from a snapshot of
    the manager's state to the next snapshot and the operation's result.
    The class in ConfigStore runs the same steps on its fields and is proved
    to agree with these functions; the lemmas at the end of this module state
    what the operations promise.

    The file system is a map from paths to file bodies; a body is either a
    JSON document or text `json.load` rejects. Writes to a path in
    `unwritable` fail (permissions, a missing directory, a full disk). The
    timestamp a backup is named after is a parameter. */
module StoreSpec {
  import opened Wrappers
  import opened JsonDoc
  import opened Text
  import opened Validation
  import opened HistoryRules
  import opened BackupNames

  datatype FileBody = JsonText(doc: Json) | NotJson

  type Files = map<string, FileBody>

  /** What the manager is configured with: the platform (`os.name == "nt"`),
      the configuration directory, and the paths writes to fail. */
  datatype Env = Env(isWindows: bool, configDir: string, unwritable: set<string>)

  /** The files and the three caches (`None` until first loaded). */
  datatype Store = Store(files: Files, commands: Option<Json>, history: Option<Json>, favorites: Option<Json>)

  /** Why loading or saving the command tree raised `ConfigurationError`. */
  datatype ConfigError =
    | FileMissing(path: string)
    | InvalidJson(path: string)
    | Invalid(reason: ValidationError)
    | WriteFailed(path: string)

  function CommandsFile(env: Env): string { env.configDir + "/commands.json" }
  function WinCommandsFile(env: Env): string { env.configDir + "/win-commands.json" }
  function HistoryFile(env: Env): string { env.configDir + "/history.json" }
  function FavoritesFile(env: Env): string { env.configDir + "/favorites.json" }
  function BackupDir(env: Env): string { env.configDir + "/backups" }
  function BackupFile(env: Env, stamp: string): string { BackupDir(env) + "/" + BackupName(stamp) }

  /** The file `get_commands` reads: the Windows file only if it exists. */
  function ReadTarget(env: Env, files: Files): string {
    if env.isWindows && WinCommandsFile(env) in files then WinCommandsFile(env) else CommandsFile(env)
  }

  /** The file saves, backups and restores use: the Windows file on Windows
      whether or not it exists. */
  function LiveFile(env: Env): string {
    if env.isWindows then WinCommandsFile(env) else CommandsFile(env)
  }

  /** The cache invariant: a cached command tree has passed validation. */
  predicate Inv(st: Store) {
    st.commands.Some? ==> Validate(st.commands.value).None?
  }

  /** Every group of a tree that passed validation is a mapping. */
  lemma ValidGroupIsObject(tree: Fields, k: string)
    requires Validate(JObj(tree)).None? && HasKey(tree, k)
    ensures Get(tree, k).value.JObj?
  {
    ValidateMeansTreeOk(JObj(tree));
  }

  /** A write whose failure the caller swallows. */
  function WriteOrKeep(env: Env, files: Files, path: string, body: FileBody): Files {
    if path in env.unwritable then files else files[path := body]
  }

  /** The document a best-effort load yields: the file's JSON, or the
      fallback when the file is missing or is not JSON. */
  function LoadOr(files: Files, path: string, fallback: Json): Json {
    if path in files && files[path].JsonText? then files[path].doc else fallback
  }

  /** `_create_default_commands`: a System and a Utilities group, with the
      commands and icons of the platform. */
  function DefaultCommands(isWindows: bool): Json {
    JObj([
      ("System", JObj([
        ("icon", JStr(if isWindows then "" else "icons/system.jpeg")),
        ("Open Terminal", JObj([
          ("command", JStr(if isWindows then "cmd.exe" else "terminator")),
          ("showOutput", JBool(false)),
          ("confirm", JBool(false))])),
        ("System Info", JObj([
          ("command", JStr(if isWindows then "systeminfo" else "uname -a")),
          ("showOutput", JBool(true)),
          ("confirm", JBool(false))]))])),
      ("Utilities", JObj([
        ("icon", JStr(if isWindows then "" else "icons/utilities.jpeg")),
        ("Text Editor", JObj([
          ("command", JStr(if isWindows then "notepad.exe" else "geany")),
          ("showOutput", JBool(false)),
          ("confirm", JBool(false))]))]))])
  }

  // ---------------------------------------------------------------------
  // Commands: load, backup, save.

  /** `get_commands(refresh)`. */
  function GetCommands(env: Env, st: Store, refresh: bool): (r: (Store, Result<Json, ConfigError>))
    ensures Inv(st) ==> Inv(r.0)
    ensures Inv(st) && r.1.Success? ==> Validate(r.1.value).None? && r.1.value.JObj?
  {
    if st.commands.Some? && !refresh then (st, Success(st.commands.value))
    else
      var path := ReadTarget(env, st.files);
      var files := if path in st.files then st.files
                   else WriteOrKeep(env, st.files, path, JsonText(DefaultCommands(env.isWindows)));
      if path !in files then (st.(files := files), Failure(FileMissing(path)))
      else match files[path]
        case NotJson => (st.(files := files), Failure(InvalidJson(path)))
        case JsonText(doc) =>
          match Validate(doc)
          case Some(e) => (st.(files := files), Failure(Invalid(e)))
          case None => (st.(files := files, commands := Some(doc)), Success(doc))
  }

  /** `backup_commands`: the new files and the returned path ("" when the
      live file does not exist or the copy fails). */
  function Backup(env: Env, files: Files, stamp: string): (Files, string) {
    var live := LiveFile(env);
    var dst := BackupFile(env, stamp);
    if live !in files || dst in env.unwritable then (files, "")
    else (files[dst := files[live]], dst)
  }

  /** `save_commands`: validate, back up, write, then cache. None on success. */
  function SaveCommands(env: Env, st: Store, doc: Json, stamp: string): (Store, Option<ConfigError>) {
    match Validate(doc)
    case Some(e) => (st, Some(Invalid(e)))
    case None =>
      var files := Backup(env, st.files, stamp).0;
      var live := LiveFile(env);
      if live in env.unwritable then (st.(files := files), Some(WriteFailed(live)))
      else (st.(files := files[live := JsonText(doc)], commands := Some(doc)), None)
  }

  // ---------------------------------------------------------------------
  // History.

  /** `get_history(refresh)`: a missing or unreadable file gives `[]`. */
  function GetHistory(env: Env, st: Store, refresh: bool): (Store, Json) {
    if st.history.Some? && !refresh then (st, st.history.value)
    else
      var h := LoadOr(st.files, HistoryFile(env), JArr([]));
      (st.(history := Some(h)), h)
  }

  /** `save_history`: the cache follows only a successful write. */
  function SaveHistory(env: Env, st: Store, h: Json): Store {
    if HistoryFile(env) in env.unwritable then st
    else st.(files := st.files[HistoryFile(env) := JsonText(h)], history := Some(h))
  }

  /** `add_to_history`: the returned list, or None when iterating the loaded
      history raised. */
  function AddToHistory(env: Env, st: Store, entry: Fields): (Store, Option<seq<Fields>>) {
    var (st1, h) := GetHistory(env, st, false);
    match ConfigItems(h)
    case None => (st1, None)
    case Some(items) =>
      var r := Prepend(items, entry);
      (SaveHistory(env, st1, ToJson(r)), Some(r))
  }

  /** `clear_history`. */
  function ClearHistory(env: Env, st: Store): Store {
    SaveHistory(env, st, JArr([]))
  }

  // ---------------------------------------------------------------------
  // Favorites.

  /** `get_favorites(refresh)`: a missing or unreadable file gives `{}`. */
  function GetFavorites(env: Env, st: Store, refresh: bool): (Store, Json) {
    if st.favorites.Some? && !refresh then (st, st.favorites.value)
    else
      var f := LoadOr(st.files, FavoritesFile(env), JObj([]));
      (st.(favorites := Some(f)), f)
  }

  /** `save_favorites`: the cache follows only a successful write. */
  function SaveFavorites(env: Env, st: Store, f: Json): Store {
    if FavoritesFile(env) in env.unwritable then st
    else st.(files := st.files[FavoritesFile(env) := JsonText(f)], favorites := Some(f))
  }

  /** The walk of `add_to_favorites`: `current = current.get(part, {})` for
      each part; None when `.get` is asked of something that is not a
      mapping (the raised AttributeError). */
  function WalkDefault(cur: Json, parts: seq<string>): Option<Json>
    decreases parts
  {
    if parts == [] then Some(cur)
    else if !cur.JObj? then None
    else WalkDefault(GetOr(cur.fields, parts[0], JObj([])), parts[1..])
  }

  /** `command_obj` of `add_to_favorites` for a path of at least two parts:
      the walk over all parts but the last, then `.get(last)`. None when the
      entry is missing or a lookup raised. */
  function FavoriteTarget(tree: Json, parts: seq<string>): Option<Json>
    requires |parts| >= 2
  {
    match WalkDefault(tree, parts[..|parts| - 1])
    case None => None
    case Some(cur) => if cur.JObj? then Get(cur.fields, parts[|parts| - 1]) else None
  }

  /** `custom_label or command_name`. */
  function FavoriteLabel(custom: Option<string>, parts: seq<string>): string
    requires parts != []
  {
    if custom.Some? && custom.value != "" then custom.value else parts[|parts| - 1]
  }

  function RefEntry(path: string): Json {
    JObj([("ref", JStr(path))])
  }

  /** `add_to_favorites(command_path, custom_label)`. The favorites mapping is
      the cached object itself, so the cache holds the new entry even when
      the write then fails. */
  function AddFavorite(env: Env, st: Store, path: string, custom: Option<string>): (Store, bool)
    requires Inv(st)
  {
    var (st1, res) := GetCommands(env, st, false);
    if res.Failure? then (st1, false)
    else
      var parts := Split(path, '.');
      if |parts| < 2 then (st1, false)
      else
        var target := FavoriteTarget(res.value, parts);
        if !(target.Some? && IsCommandNode(target.value)) then (st1, false)
        else
          var name := FavoriteLabel(custom, parts);
          var (st2, fav) := GetFavorites(env, st1, false);
          if !fav.JObj? then (st2, false)
          else
            var nf := JObj(Put(fav.fields, name, RefEntry(path)));
            (SaveFavorites(env, st2.(favorites := Some(nf)), nf), true)
  }

  /** `remove_from_favorites(label)`. */
  function RemoveFavorite(env: Env, st: Store, name: string): (Store, bool) {
    var (st1, fav) := GetFavorites(env, st, false);
    if fav.JObj? && HasKey(fav.fields, name) then
      var nf := JObj(Delete(fav.fields, name));
      (SaveFavorites(env, st1.(favorites := Some(nf)), nf), true)
    else (st1, false)
  }

  /** `d[k] = v` for each pair, in order. */
  function Merge(fs: Fields, pairs: Fields): Fields
    decreases pairs
  {
    if pairs == [] then fs else Merge(Put(fs, pairs[0].0, pairs[0].1), pairs[1..])
  }

  /** The same assignments made into a value that may not be a mapping:
      None when the first assignment raises. */
  function MergeInto(target: Json, pairs: Fields): Option<Json> {
    if pairs == [] then Some(target)
    else if !target.JObj? then None
    else Some(JObj(Merge(target.fields, pairs)))
  }

  /** `migrate_favorites_from_commands`. The tree and the favorites are the
      cached objects, edited in place before they are saved. */
  function Migrate(env: Env, st: Store, stamp: string): (Store, bool)
    requires Inv(st)
  {
    var (st1, res) := GetCommands(env, st, false);
    if res.Failure? then (st1, false)
    else
      var tree := res.value.fields;
      if !HasKey(tree, "Favorites") then (st1, true)
      else
        ValidGroupIsObject(tree, "Favorites");
        if KeyCount(Get(tree, "Favorites").value.fields) <= 1 then (st1, true)
      else
        var moving := Delete(Get(tree, "Favorites").value.fields, "icon");
        var (st2, fav) := GetFavorites(env, st1, false);
        match MergeInto(fav, moving)
        case None => (st2, false)
        case Some(nf) =>
          var st3 := SaveFavorites(env, st2.(favorites := Some(nf)), nf);
          var newTree := JObj(Delete(tree, "Favorites"));
          var (st4, err) := SaveCommands(env, st3.(commands := Some(newTree)), newTree, stamp);
          (st4, err.None?)
  }

  // ---------------------------------------------------------------------
  // Backups, restore, import and export.

  /** `list_backups` given the directory listing (None when `os.listdir`
      raised): path and shown date of every backup, newest first. */
  function BackupListing(env: Env, listing: Option<seq<string>>): seq<(string, string)> {
    if listing.None? then []
    else
      var names := SortDesc(BackupEntries(listing.value));
      seq(|names|, i requires 0 <= i < |names| => (BackupDir(env) + "/" + names[i], FormatStamp(names[i])))
  }

  /** `restore_from_backup(backup_file)`: snapshot first, then copy over the
      live file and drop the cached tree. Copying a missing file, a file onto
      itself or onto an unwritable path fails. */
  function Restore(env: Env, st: Store, backupFile: string, stamp: string): (Store, bool) {
    var files := Backup(env, st.files, stamp).0;
    var live := LiveFile(env);
    if backupFile !in files || backupFile == live || live in env.unwritable then (st.(files := files), false)
    else (st.(files := files[live := files[backupFile]], commands := None), true)
  }

  /** Some imported group name is already a group of the tree. */
  predicate Conflicts(tree: Fields, incoming: Fields) {
    exists i :: 0 <= i < |incoming| && HasKey(tree, incoming[i].0)
  }

  /** `import_command_group(import_file, overwrite)` with the merge made into
      a copy of the cached tree, so a save that fails leaves the cache as it
      was. See ImportAsWritten for the source's in-place merge. */
  function Import(env: Env, st: Store, importFile: string, overwrite: bool, stamp: string): (Store, bool)
    requires Inv(st)
  {
    if importFile !in st.files || !st.files[importFile].JsonText? || !st.files[importFile].doc.JObj? then (st, false)
    else
      var incoming := st.files[importFile].doc.fields;
      var (st1, res) := GetCommands(env, st, false);
      if res.Failure? then (st1, false)
      else
        var tree := res.value.fields;
        if Conflicts(tree, incoming) && !overwrite then (st1, false)
        else
          var merged := JObj(Merge(tree, incoming));
          var (st2, err) := SaveCommands(env, st1, merged, stamp);
          (st2, err.None?)
  }

  /** The source's `import_command_group`: the merge writes into the cached
      tree before `save_commands` runs, so the cache keeps the merged tree
      even when the save refuses it. */
  function ImportAsWritten(env: Env, st: Store, importFile: string, overwrite: bool, stamp: string): (Store, bool)
    requires Inv(st)
  {
    if importFile !in st.files || !st.files[importFile].JsonText? || !st.files[importFile].doc.JObj? then (st, false)
    else
      var incoming := st.files[importFile].doc.fields;
      var (st1, res) := GetCommands(env, st, false);
      if res.Failure? then (st1, false)
      else
        var tree := res.value.fields;
        if Conflicts(tree, incoming) && !overwrite then (st1, false)
        else
          var merged := JObj(Merge(tree, incoming));
          var (st2, err) := SaveCommands(env, st1.(commands := Some(merged)), merged, stamp);
          (st2, err.None?)
  }

  /** `export_command_group(group_name, export_file)`. */
  function Export(env: Env, st: Store, group: string, exportFile: string): (Store, bool)
    requires Inv(st)
  {
    var (st1, res) := GetCommands(env, st, false);
    if res.Failure? then (st1, false)
    else
      var tree := res.value.fields;
      if !HasKey(tree, group) || exportFile in env.unwritable then (st1, false)
      else (st1.(files := st1.files[exportFile := JsonText(JObj([(group, Get(tree, group).value)]))]), true)
  }
}
