# py-tray-command-launcher, modelled in Dafny

py-tray-command-launcher is a system-tray menu of shell commands. The commands
live in a JSON tree: top-level **groups** map names to **command entries**
(`command`, optional `icon`, `showOutput`, `confirm`, `prompt`) or to nested
groups. The `icon` key of a group is its icon path. The launcher keeps three
JSON documents in its configuration directory: the command tree, the
execution history (the ten most recent distinct commands, newest first) and
the favorites (references `{"ref": "Group.Name"}` into the command tree).

This project models the launcher's core:

- **The configuration store** (`ConfigManager`). It loads the command tree,
  creating the default tree when the file is missing. It validates a tree
  before saving it and backs it up before overwriting it. It keeps the
  history and the favorites, lists and restores backups, imports and exports
  command groups, and migrates an old "Favorites" group into the favorites
  file. Pure functions over a `Store` snapshot (module `StoreSpec`) say what
  every operation does. The class `ConfigStore.ConfigManager` holds the
  files and the three caches as fields, and each of its methods is proved
  to equal its function and to keep the store invariant `Valid()`: a cached
  command tree is one that has passed validation. `StoreLaws` proves what
  the functions mean: outcomes in both directions, save-then-reload,
  clear-then-read, export-then-import and restore-then-load.
- **The tray.** This covers resolving favorite references with
  `_resolve_command_reference`, the menu action each entry gets, flattening the tree into the searchable list of
  commands, and the confirm and prompt steps before a command runs.
- **The dialogs' logic.** The command creator builds the entry and inserts
  it into a group. The search dialog filters without regard to case and
  runs the first record with the chosen text. The scheduler builds
  `schtasks` arguments or a cron line with its marker comment, lists those
  jobs back and deletes them. The file encryptor collects which files to
  process, names the outputs and salt files, and reports success.
- **The older modules.** These are the stand-alone history manager, the
  old favorites module, and the old tray's two-level listing. The history
  manager and the old listing are proved to agree with the current code
  where the two overlap. A favorite the old module stores in the tree's
  "Favorites" group is proved to reach the favorites through the store's
  migration.

JSON objects are sequences of key/value pairs in insertion order (`JsonDoc`).
Lookup, assignment and deletion behave as Python's `dict` does. The file
system is a map from path to file body. A write fails exactly on the paths
in `Env.unwritable`. The clock is a `stamp` parameter.

Some behaviour of the code worth knowing:

- `_validate_commands` checks only the entries of each top-level group that
  carry a `"command"` key. It does not enter nested groups, and it ignores
  entries without a command. `Validation.NestedNotChecked` and
  `Validation.ItemsWithoutCommandPass` pin this down.
- The caches are write-through: a successful save sets the cache to what
  was saved.
- `backup_commands` swallows a failed backup and returns `""`. The save
  goes on.
- The default tree is created once, when the commands file is missing, and
  then loaded. A file that does not parse is an error, with no retry.
- On Windows the store reads `win-commands.json` only if it exists, but
  `save_commands` always writes that file.
- Icons are only `item.get("icon", parent)` with a fallback to the parent's
  icon when the file is missing; nothing else resolves them.

## Model

| member | source | states |
|---|---|---|
| JsonDoc.Keys | src/modules/command_creator.py:28-30 | one key per pair, in insertion order |
| JsonDoc.Get | src/core/config_manager.py:476 | a value comes back exactly when the key is present, and it is a value stored under that key |
| JsonDoc.Put | src/core/config_manager.py:407-408 | assigning an existing key keeps the object's size; a new key is appended at the end |
| JsonDoc.Delete | src/core/config_manager.py:531 | after `del` the key is absent and the object is no larger |
| JsonDoc.GetPut | src/core/config_manager.py:407-408 | after an assignment the key reads the new value and every other key reads what it did before |
| JsonDoc.KeysPut | src/core/config_manager.py:407-408 | key order is unchanged for an existing key; a new key comes last |
| JsonDoc.PutDistinct | src/core/config_manager.py:407-408 | assignment keeps the keys distinct |
| JsonDoc.PutInPlace | src/core/config_manager.py:407-408 | pairs under other keys stay at their positions |
| JsonDoc.GetDelete | src/core/config_manager.py:531 | after deletion the key reads nothing and every other key is unchanged |
| JsonDoc.DeleteAbsent | src/core/config_manager.py:530-531 | deleting a key that is not there changes nothing |
| JsonDoc.DeleteOne | src/core/config_manager.py:531 | in a well-formed object deletion removes exactly one pair, keeps keys distinct and keeps every other key |
| JsonDoc.DeleteKeeps | src/core/config_manager.py:531 | every pair left after deletion was in the object |
| JsonDoc.KeyCount | src/core/config_manager.py:559 | `len()` of an object is at most its number of pairs |
| JsonDoc.KeyCountDistinct | src/core/config_manager.py:559 | with distinct keys `len()` is the number of pairs |
| JsonDoc.KeyCountOther | src/core/config_manager.py:559-569 | two or more keys means some key other than the given one (so a group holds more than its icon) |
| Text.LStrip | src/modules/schedule_viewer.py:214 | a suffix of the text that starts with a non-space, and only whitespace was dropped |
| Text.RStrip | src/modules/schedule_creator.py:243 | a prefix of the text that ends with a non-space, and only whitespace was dropped |
| Text.StripKeeps | src/modules/schedule_viewer.py:214 | text without surrounding whitespace is its own strip |
| Text.TrimChar | src/modules/schedule_viewer.py:161-163 | `strip('"')` leaves no quote at either end and only characters of the input |
| Text.TakeWord | src/modules/schedule_viewer.py:221 | the longest whitespace-free prefix |
| Text.Words | src/modules/schedule_viewer.py:221 | `split()` gives non-empty whitespace-free words |
| Text.WordsCons | src/modules/schedule_viewer.py:221 | a word followed by whitespace or the end is the first word |
| Text.WordsSpace | src/modules/schedule_viewer.py:221 | leading whitespace does not change the words |
| Text.Split | src/core/config_manager.py:467 | `split(sep)` gives at least one part and no part holds the separator |
| Text.JoinSplit | src/modules/schedule_viewer.py:336-353 | joining the parts of a split with the separator gives the text back |
| Text.SplitJoin | src/modules/schedule_viewer.py:266-269 | splitting the joined parts gives the parts back when none holds the separator |
| Text.SplitAround | src/modules/schedule_viewer.py:336 | a separator splits the text into the parts of each side |
| Text.SplitNoSep | src/modules/schedule_viewer.py:266-267 | a text without the separator is a single part |
| Text.JoinAppend | src/modules/schedule_viewer.py:353 | joining one more part appends the separator and that part |
| Text.ContainsEmpty | src/modules/command_search.py:43 | the empty text occurs in every text |
| Text.ReplaceAbsent | src/core/tray_app.py:334 | replacing a pattern that does not occur changes nothing |
| Text.ReplaceSkips | src/core/tray_app.py:334 | a prefix that cannot start the pattern is copied unchanged |
| Text.ReplaceFront | src/core/tray_app.py:334 | an occurrence at the front is replaced and the scan goes on after it |
| Text.Lower | src/modules/command_search.py:39-43 | same length; each letter lowered |
| Text.PadLeft | src/modules/schedule_viewer.py:231 | width is the larger of the text's length and the target; the text ends it and the fill comes before |
| Text.NatToString | src/modules/schedule_creator.py:224 | a non-empty string of decimal digits |
| Text.PySlice | src/core/config_manager.py:330-333 | Python slicing with clamped bounds: never longer than asked, exact when in range |
| Text.AfterFirst | src/modules/schedule_viewer.py:178 | the text after the first occurrence of the label: there is a position where the label occurs, no earlier position starts with it, and the result is everything after it |
| Validation.CheckEntryOk | src/core/config_manager.py:613-636 | an entry passes the checks exactly when it meets the declarative rules: string command, boolean showOutput and confirm, string prompt |
| Validation.CheckItemsOk | src/core/config_manager.py:609-636 | a group passes exactly when every command entry in it is well-formed |
| Validation.CheckGroupsOk | src/core/config_manager.py:602-636 | the group loop passes exactly when every group is a mapping of well-formed entries |
| Validation.ValidateMeansTreeOk | src/core/config_manager.py:592-636 | validation succeeds if and only if the tree is valid by the declarative rules |
| Validation.FailureNamesGroup | src/core/config_manager.py:605-636 | each error below the root names a group that is in the tree |
| Validation.ItemsNameGroup | src/core/config_manager.py:609-636 | an error found inside a group names that group and is an entry-level error |
| Validation.NestedNotChecked | src/core/config_manager.py:609-618 | a bad entry inside a nested group is not reported |
| Validation.ItemsWithoutCommandPass | src/core/config_manager.py:613 | an entry without "command" is not checked |
| Validation.CommandItemChecked | src/core/config_manager.py:621-626 | a non-boolean confirm is reported with its group and name |
| HistoryRules.Drop | src/core/config_manager.py:216-217 | the old entries left have commands other than the new one |
| HistoryRules.Take | src/core/config_manager.py:218 | `[:n]`: the first min(n, length) entries |
| HistoryRules.DropSubseq | src/core/config_manager.py:216-217 | the entries left keep their relative order |
| HistoryRules.DropMembers | src/core/config_manager.py:216-217 | an entry is left exactly when it was there and has another command |
| HistoryRules.CommandOf | src/core/config_manager.py:216 | a missing "command" key and a null command both read as None; otherwise the stored value |
| HistoryRules.PrependNullCommand | src/core/config_manager.py:215-218 | after recording an entry with no or a null command, every kept entry has a non-null command |
| HistoryRules.NullCommandDropsMissing | src/core/config_manager.py:215-218 | an old entry without a command is dropped when an entry with a null command is recorded |
| HistoryRules.PrependShape | src/core/config_manager.py:213-218 | at most ten entries, the new one first, no repeat of its command, the rest an ordered subsequence of the old |
| HistoryRules.PrependKeeps | src/core/config_manager.py:216-218 | an old entry with another command survives when it fits within the ten |
| HistoryRules.PrependDropsSame | src/core/config_manager.py:216-217 | every later entry is an old one with another command |
| HistoryRules.PrependIdempotent | src/core/config_manager.py:213-218 | running the same command twice leaves the history of running it once |
| HistoryRules.PrependUnique | src/core/config_manager.py:213-218 | a history with distinct commands keeps them distinct |
| HistoryRules.DropNoMatch | src/core/config_manager.py:216-217 | when no entry has the command, nothing is dropped |
| HistoryRules.AsObjects | src/core/config_manager.py:213-217 | a list converts only when every element is a mapping, and then element by element |
| HistoryRules.ToJson | src/core/config_manager.py:194-195 | one JSON object per entry, in order |
| HistoryRules.ConfigItems | src/core/config_manager.py:213-217 | the entries read from a list write back to that list |
| HistoryRules.KeyedItems | src/modules/command_history.py:38-39 | accepted only when every entry has "command"; otherwise as the store reads it |
| HistoryRules.ItemsToJson | src/core/config_manager.py:186-226 | reading back written entries gives them back |
| BackupNames.LexLeTotal | src/core/config_manager.py:325 | string order is total |
| BackupNames.LexLeTrans | src/core/config_manager.py:325 | string order is transitive |
| BackupNames.LexLeAntisym | src/core/config_manager.py:325 | string order is antisymmetric |
| BackupNames.LexLePrefix | src/core/config_manager.py:325 | a common prefix does not change the order |
| BackupNames.InsertDesc | src/core/config_manager.py:325 | insertion adds the element once and keeps descending order |
| BackupNames.SortDesc | src/core/config_manager.py:325 | `sort(reverse=True)`: a permutation in descending order |
| BackupNames.BackupEntries | src/core/config_manager.py:318-322 | exactly the directory entries named commands_*.json |
| BackupNames.TemplateRemoved | src/core/config_manager.py:329 | removing the name template gives the stamp back |
| BackupNames.FormatBackupStamp | src/core/config_manager.py:329-333 | a backup's date-time stamp is shown as YYYY-MM-DD HH:MM:SS |
| StoreSpec.ValidGroupIsObject | src/core/config_manager.py:605-607 | every group of a valid tree is a mapping |
| StoreSpec.GetCommands | src/core/config_manager.py:80-124 | loading keeps the invariant, and a loaded tree is a mapping |
| StoreLaws.BackupFileDistinct | src/core/config_manager.py:295-296 | a backup never overwrites the commands, history or favorites files |
| StoreLaws.BackupFileInjective | src/core/config_manager.py:295-296 | different stamps give different backup files |
| StoreLaws.DefaultIsValid | src/core/config_manager.py:638-667 | the default tree passes validation on both platforms |
| StoreLaws.DefaultEntryOk | src/core/config_manager.py:645-665 | each default entry has the shape of a well-formed entry |
| StoreLaws.GetCommandsCached | src/core/config_manager.py:93-124 | with a cached tree and no refresh, loading returns the cache and changes nothing |
| StoreLaws.GetCommandsCreatesDefault | src/core/config_manager.py:101-113 | a missing commands file becomes the default tree, written and cached |
| StoreLaws.GetCommandsFailure | src/core/config_manager.py:115-122 | a failed load leaves the caches and every other file unchanged |
| StoreLaws.SaveCommandsOutcome | src/core/config_manager.py:136-158 | a save succeeds exactly when the tree is valid and the file writable; an invalid tree changes nothing; success caches and writes the tree; failure keeps the cache and the live file |
| StoreLaws.SaveThenReload | src/core/config_manager.py:80-158 | after a successful save, loading returns the saved tree |
| StoreLaws.SaveKeepsInv | src/core/config_manager.py:136-153 | saving keeps the store invariant |
| StoreLaws.AddToHistoryOutcome | src/core/config_manager.py:213-224 | the new history has at most ten entries, newest first, without its command elsewhere, the rest in old order; written when possible; other caches unchanged |
| StoreLaws.AddToHistoryFailure | src/core/config_manager.py:213-217 | recording fails exactly when iterating the loaded history raises, and the store is then as the load left it |
| StoreLaws.AddToHistoryTwice | src/core/config_manager.py:213-226 | recording the same entry again changes nothing |
| StoreLaws.ClearThenGet | src/core/config_manager.py:228-231 | after clearing, the history reads as empty |
| StoreLaws.SaveHistoryThenReload | src/core/config_manager.py:160-201 | a saved history reloads unchanged |
| StoreLaws.WalkEmpty | src/core/config_manager.py:479-481 | walking an empty tree finds only empty groups |
| StoreLaws.AddFavoriteOutcome | src/core/config_manager.py:464-505 | adding succeeds exactly when the path names a command entry; success stores the reference under its label and keeps the other favorites |
| StoreLaws.RemoveFavoriteOutcome | src/core/config_manager.py:527-539 | removal succeeds exactly when the label is a favorite; it drops that label only |
| StoreLaws.MergeGet | src/core/config_manager.py:407-408 | after the merge each key reads the incoming value if it has one, else the old value |
| StoreLaws.MergeKeysPrefix | src/core/config_manager.py:407-408 | the merge keeps the old keys first, in order |
| StoreLaws.DeleteKeepsValid | src/core/config_manager.py:582 | deleting a group from a valid tree leaves it valid |
| StoreLaws.ImportKeepsInv | src/core/config_manager.py:373-417 | import keeps the store invariant |
| StoreLaws.ImportRefusesNonMapping | src/core/config_manager.py:389-391 | a missing, unparsable or non-mapping import file changes nothing and fails |
| StoreLaws.ImportConflictKeepsTree | src/core/config_manager.py:397-404 | a name clash without overwrite fails and keeps the tree |
| StoreLaws.ImportSucceedsIff | src/core/config_manager.py:373-417 | an import succeeds exactly when the file holds a mapping, the current tree loads, there is no conflicting group or overwriting is allowed, the merged tree validates and the live file is writable |
| StoreLaws.ImportOutcome | src/core/config_manager.py:394-411 | a successful import writes and caches a tree in which each imported group reads its imported value and all other groups are kept; a failed one keeps the cache |
| StoreLaws.ExportOutcome | src/core/config_manager.py:432-441 | export succeeds exactly when the group exists and the file is writable, and writes only that group |
| StoreLaws.ExportThenImport | src/core/config_manager.py:373-447 | importing an exported group with overwrite gives back the same tree |
| StoreLaws.MigrateNothingToDo | src/core/config_manager.py:559-561 | without an old Favorites group holding entries, migration is a successful no-op |
| StoreLaws.MigrateOutcome | src/core/config_manager.py:566-583 | migration merges the old entries into the favorites and removes the group from the tree, keeping the invariant |
| StoreLaws.MigrateMerge | src/core/config_manager.py:566-576 | after the merge each old entry reads its value and the other favorites are kept |
| StoreLaws.MigrateSaves | src/core/config_manager.py:575-583 | the merged favorites are what migration saves |
| StoreLaws.BackupListingOutcome | src/core/config_manager.py:318-335 | the listing holds the backups sorted newest first, each with its path and formatted date |
| StoreLaws.BackupIsListed | src/core/config_manager.py:318-335 | every backup in the directory is listed |
| StoreLaws.RestoreOutcome | src/core/config_manager.py:352-368 | restore succeeds exactly when the file exists, is not the live file and the live file is writable; it snapshots first, copies the backup and drops the cache |
| StoreLaws.RestoreThenLoad | src/core/config_manager.py:352-368 | after restoring a valid backup, loading returns its tree |
| StoreLaws.RestoreIsReversible | src/core/config_manager.py:352-368 | restoring the snapshot taken by a restore brings back the previous live file |
| StoreLaws.ImportAsWrittenBreaksCache | src/core/config_manager.py:394-411 | the code as written leaves an invalid tree in the cache |
| StoreLaws.ImportRefusedKeepsCache | src/core/config_manager.py:394-411 | the corrected import refuses the same input and changes nothing |
| ConfigStore.WalkPath | src/core/config_manager.py:478-483 | the loop walks the path like the walk function |
| ConfigStore.AssignAll | src/core/config_manager.py:407-408 | the loop assigns every incoming group |
| ConfigStore.FindConflicts | src/core/config_manager.py:397-404 | a conflict is listed exactly when an incoming group already exists and overwrite is off |
| ConfigStore.PairWithStamps | src/core/config_manager.py:327-335 | each backup name is paired with its path and formatted date |
| ConfigStore.ConfigManager.constructor | src/core/config_manager.py:47-78 | a new store is empty apart from its files, has run the favorites migration and is valid |
| ConfigStore.ConfigManager.CreateDefaultCommands | src/core/config_manager.py:638-679 | writes the default tree where writable; the caches are unchanged |
| ConfigStore.ConfigManager.GetCommands | src/core/config_manager.py:80-124 | state and result are those of loading, and the invariant holds |
| ConfigStore.ConfigManager.BackupCommands | src/core/config_manager.py:277-305 | files and result are those of a backup; caches unchanged |
| ConfigStore.ConfigManager.SaveCommands | src/core/config_manager.py:126-158 | state and error are those of saving, and the invariant holds |
| ConfigStore.ConfigManager.GetHistory | src/core/config_manager.py:160-184 | state and result are those of reading the history |
| ConfigStore.ConfigManager.SaveHistory | src/core/config_manager.py:186-201 | the state is that of saving the history |
| ConfigStore.ConfigManager.AddToHistory | src/core/config_manager.py:203-226 | state and result are those of recording an entry, and the invariant holds |
| ConfigStore.ConfigManager.ClearHistory | src/core/config_manager.py:228-231 | the state is that of clearing, and the invariant holds |
| ConfigStore.ConfigManager.GetFavorites | src/core/config_manager.py:233-258 | state and result are those of reading the favorites |
| ConfigStore.ConfigManager.SaveFavorites | src/core/config_manager.py:260-275 | the state is that of saving the favorites |
| ConfigStore.ConfigManager.ListBackups | src/core/config_manager.py:307-340 | the listing is that of the backup directory |
| ConfigStore.ConfigManager.RestoreFromBackup | src/core/config_manager.py:342-371 | state and result are those of restoring, and the invariant holds |
| ConfigStore.ConfigManager.ImportCommandGroup | src/core/config_manager.py:373-417 | state and result are those of the corrected import, and the invariant holds |
| ConfigStore.ConfigManager.ExportCommandGroup | src/core/config_manager.py:419-447 | state and result are those of exporting, and the invariant holds |
| ConfigStore.ConfigManager.AddToFavorites | src/core/config_manager.py:449-513 | state and result are those of adding a favorite, and the invariant holds |
| ConfigStore.ConfigManager.RemoveFromFavorites | src/core/config_manager.py:515-542 | state and result are those of removing a favorite, and the invariant holds |
| ConfigStore.ConfigManager.MigrateFavoritesFromCommands | src/core/config_manager.py:544-590 | state and result are those of migrating, and the invariant holds |
| TrayCore.Resolve | src/core/tray_app.py:188-245 | resolution returns the item itself or a command entry |
| TrayCore.WalkParts | src/core/tray_app.py:222-227 | the loop walks the reference like the strict walk |
| TrayCore.ResolveCommandReference | src/core/tray_app.py:188-245 | the method returns what resolution returns |
| TrayCore.ResolveFinds | src/core/tray_app.py:232-237 | a resolved item was a reference of two or more parts, and the walk ends at the command entry returned |
| TrayCore.ResolveComplete | src/core/tray_app.py:205-237 | a reference whose walk ends at a command entry resolves to it |
| TrayCore.ResolveNonReference | src/core/tray_app.py:200-245 | an item without "ref" is returned as it is |
| TrayCore.LenientWalkIsStrict | src/core/tray_app.py:222-227 | when the store's lenient walk finds a non-empty group, the tray's strict walk finds the same one |
| TrayCore.FavoriteReferenceResolves | src/core/tray_app.py:188-245 | a reference the store accepted resolves to the entry it pointed at |
| TrayCore.AddedFavoriteResolves | src/core/config_manager.py:467-502 | every favorite the store adds resolves by `_resolve_command_reference` to a command entry of the tree it was checked against |
| TrayCore.MenuAction | src/core/tray_app.py:247-310 | an action, when there is one, is titled with the entry's label |
| TrayCore.MenuActionRegular | src/core/tray_app.py:285-296 | an ordinary entry gets an action exactly when it has a non-empty command, with its own settings or the defaults |
| TrayCore.MenuActionFavorite | src/core/tray_app.py:255-265 | a resolved favorite takes the command and settings of the entry it points at |
| TrayCore.DanglingFavoriteFails | src/core/tray_app.py:255-291 | a favorite that does not resolve gets no action |
| TrayCore.ProcessItems | src/core/tray_app.py:378-398 | the loop appends the flattened records of the group |
| TrayCore.GetAllCommands | src/core/tray_app.py:372-404 | the loop collects the records of every group |
| TrayCore.FlattenConcat | src/core/tray_app.py:378-398 | flattening distributes over concatenation |
| TrayCore.FlattenShape | src/core/tray_app.py:378-398 | every record lies under the group it was listed from and is never an icon |
| TrayCore.FlattenComplete | src/core/tray_app.py:378-398 | every command entry, at any depth, is listed |
| TrayCore.AllCommandsComplete | src/core/tray_app.py:400-402 | every record of every group is in the full list |
| TrayCore.FlattenCount | src/core/tray_app.py:380-396 | a group without subgroups lists one record per command entry |
| TrayCore.CountCommands | src/core/tray_app.py:380 | at most one command per entry |
| TrayCore.Execute | src/core/tray_app.py:313-342 | the run is recorded in the history first; then the outcome is that of the confirm and prompt steps, or a failure when recording fails; a command that runs is followed by a forced reload of the tree, whose failure is reported after the run |
| TrayCore.NoRunNoReload | src/core/tray_app.py:326-335 | a declined, cancelled or refused command leaves the store as recording the entry left it |
| TrayCore.RunReloadsTree | src/core/tray_app.py:423-429 | after a run the cache holds the tree just read from the commands file, whatever was cached before; a failed reload is reported with its error and keeps the cache; history and favorites are not touched |
| TrayCore.DeclinedRunsNothing | src/core/tray_app.py:326-328 | a declined confirmation runs nothing |
| TrayCore.EmptyInputRunsNothing | src/core/tray_app.py:330-333 | a cancelled or empty prompt runs nothing |
| TrayCore.NoPromptRunsAsWritten | src/core/tray_app.py:326-339 | without a prompt, an accepted command runs as written |
| TrayCore.SubstitutesInput | src/core/tray_app.py:334 | the prompt's input replaces the placeholder |
| CommandCreator.GroupChoices | src/modules/command_creator.py:28-30 | the group combo box offers exactly the groups, in order |
| CommandCreator.CommandData | src/modules/command_creator.py:105-115 | the entry holds the form's command, showOutput and confirm; an icon only when given; a prompt only when checked and non-empty |
| CommandCreator.BuildCommandData | src/modules/command_creator.py:105-115 | the method builds that entry |
| CommandCreator.Creation | src/modules/command_creator.py:95-122 | empty fields are rejected; a non-mapping group raises; otherwise the entry is stored in its group (created if missing) and nothing else changes |
| CommandCreator.CreateCommand | src/modules/command_creator.py:95-125 | the method decides as the creation function |
| CommandCreator.CreateTwice | src/modules/command_creator.py:118-122 | creating the same command twice gives the tree of creating it once |
| CommandCreator.CreatedCommandIsListed | src/modules/command_creator.py:118-122 | a created command appears in the tray's list of commands |
| CommandSearch.ListItems | src/modules/command_search.py:33-35 | one item per record, showing its display text |
| CommandSearch.FilterCommands | src/modules/command_search.py:38-43 | an item is hidden exactly when its lowered text does not contain the lowered search |
| CommandSearch.EmptySearchHidesNothing | src/modules/command_search.py:39-43 | an empty search shows everything |
| CommandSearch.CaseDoesNotMatter | src/modules/command_search.py:39-43 | lowering the search changes nothing |
| CommandSearch.ItemShowsForItself | src/modules/command_search.py:39-43 | searching for an item's own text shows it |
| CommandSearch.TypingMoreHidesMore | src/modules/command_search.py:39-43 | extending the search never shows a hidden item |
| CommandSearch.FirstMatch | src/modules/command_search.py:48-62 | the first record with the chosen text, or none when none has it |
| CommandSearch.OnExecute | src/modules/command_search.py:48-62 | with a selection, the first record with its text runs; without one nothing does |
| CommandSearch.FirstIs | src/modules/command_search.py:48-62 | the earliest record with the text is the one found |
| CommandSearch.ListedItemRuns | src/modules/command_search.py:48-62 | every listed item runs a record with its text, at or before it |
| CommandSearch.ShadowedRecordNeverRuns | src/modules/command_search.py:48-62 | a record after another with the same text never runs |
| CommandSearch.NestedNamesCollide | src/modules/command_search.py:35-53 | two different records can show the same text |
| CommandHistoryModule.NewEntry | src/modules/command_history.py:42-49 | the new entry's command is the one run |
| CommandHistoryModule.AddEntry | src/modules/command_history.py:38-49 | adding succeeds exactly when every stored entry has a command |
| CommandHistoryModule.CommandHistory.constructor | src/modules/command_history.py:9-13 | loads the history file, or an empty list |
| CommandHistoryModule.CommandHistory.LoadHistory | src/modules/command_history.py:15-24 | the stored list, or an empty one when missing or unreadable |
| CommandHistoryModule.CommandHistory.SaveHistory | src/modules/command_history.py:26-33 | writes the history where writable and keeps it |
| CommandHistoryModule.CommandHistory.AddToHistory | src/modules/command_history.py:35-52 | on success the history becomes the new list and is saved; on failure nothing changes |
| CommandHistoryModule.CommandHistory.ClearHistory | src/modules/command_history.py:79-82 | the history is empty and saved |
| CommandHistoryModule.AddEntryShape | src/modules/command_history.py:38-49 | at most ten entries, newest first, its command not repeated, the rest in old order |
| CommandHistoryModule.MissingCommandFails | src/modules/command_history.py:38-39 | one stored entry without a command makes adding fail |
| CommandHistoryModule.AgreesWithManager | src/modules/command_history.py:38-49 | on a history whose entries all have commands, the module and the store compute the same list |
| CommandHistoryModule.AddThenReload | src/modules/command_history.py:30-49 | the saved list reloads as itself |
| LegacyFavorites.FavoriteName | src/modules/favorites.py:26-29 | the favorite's label: the name alone or "group → name" |
| LegacyFavorites.AddToFavorites | src/modules/favorites.py:17-34 | fails exactly when "Favorites" is not a mapping; otherwise stores the data under the label and changes no other group |
| LegacyFavorites.RemoveFromFavorites | src/modules/favorites.py:42-55 | removes the label when present, saving the group without it; otherwise nothing changes |
| LegacyFavorites.RemoveOnlyThat | src/modules/favorites.py:51-52 | removal drops that label only |
| LegacyFavorites.EntryOf | src/modules/favorites.py:104-115 | a favorite menu entry comes only from a command entry other than the icon |
| LegacyFavorites.PopulateFavoritesMenu | src/modules/favorites.py:88-131 | the loop builds the menu the function describes |
| LegacyFavorites.EntriesAreCommands | src/modules/favorites.py:104-108 | every menu entry is a stored command entry other than the icon |
| LegacyFavorites.OneFavoriteWithoutIconIsHidden | src/modules/favorites.py:93 | a group with one key shows "No Favorites", even when that key is a command |
| LegacyFavorites.ContextData | src/modules/favorites.py:71-76 | the data carries command, showOutput, confirm and prompt, in that order |
| LegacyFavorites.ContextDataCopies | src/modules/favorites.py:71-76 | the data copies the record's settings and has no icon |
| LegacyFavorites.StoredFavoriteMigrates | src/core/config_manager.py:557-583 | a favorite stored next to the group's icon reads the same data in the favorites after the migration, and the group leaves the tree |
| LegacyFavorites.FreshGroupEntries | src/modules/favorites.py:22-31 | a new group with one favorite lists exactly that favorite |
| LegacyFavorites.AddedRecordIsListed | src/modules/favorites.py:22-31 | a favorite added to a fresh group is shown in the menu |
| LegacyFavorites.ListedGroup | src/modules/favorites.py:93-104 | a group with two or more keys is listed entry by entry |
| LegacyTray.ProcessSubItems | src/tray_app.py:243-252 | the loop appends the commands of a subgroup |
| LegacyTray.ProcessItem | src/tray_app.py:231-252 | one entry contributes its command or its subgroup's commands |
| LegacyTray.ProcessItems | src/tray_app.py:230-252 | the loop appends the records of a group |
| LegacyTray.GetAllCommands | src/tray_app.py:225-258 | the loop collects the records of every group |
| LegacyTray.GroupDepth | src/tray_app.py:241-252 | records come from the group or one of its direct subgroups only |
| LegacyTray.SubGroupName | src/tray_app.py:246 | subgroup records carry the subgroup's label |
| LegacyTray.DeeperLevelsIgnored | src/tray_app.py:243-244 | a command three levels down is not listed |
| LegacyTray.AgreesOnShallowTrees | src/tray_app.py:230-256 | on trees without deep nesting or icon commands, the old and current listings are equal |
| LegacyTray.GroupAgrees | src/tray_app.py:230-252 | per group, the two listings are equal on such trees |
| LegacyTray.SubAgrees | src/tray_app.py:243-252 | per subgroup, the two listings are equal on such trees |
| LegacyTray.IconCommandListed | src/tray_app.py:232 | the old listing does not skip an entry named "icon" |
| LegacyTray.Execute | src/tray_app.py:125-140 | the outcome of the confirm and prompt steps; no history is written |
| FileEncryptor.JoinPath | src/modules/file_encryptor.py:102 | the joined path ends with the name |
| FileEncryptor.EncryptedName | src/modules/file_encryptor.py:60 | the output ends with ".enc" |
| FileEncryptor.DecryptedName | src/modules/file_encryptor.py:81 | the output is four characters shorter |
| FileEncryptor.DecryptedEncrypted | src/modules/file_encryptor.py:60-81 | decrypting an encrypted name gives the name back |
| FileEncryptor.EncryptedDecrypted | src/modules/file_encryptor.py:60-81 | a ".enc" name is the encryption of its decryption |
| FileEncryptor.CollectNames | src/modules/file_encryptor.py:101-106 | the loop keeps the names the operation wants |
| FileEncryptor.GetAllFiles | src/modules/file_encryptor.py:92-107 | the file list is that of the walk |
| FileEncryptor.WalkFilesWanted | src/modules/file_encryptor.py:100-106 | every collected file is a walked name the operation wants |
| FileEncryptor.NameFilesWanted | src/modules/file_encryptor.py:100-106 | in one folder every collected file is a wanted name |
| FileEncryptor.OperationsSplitTheFolder | src/modules/file_encryptor.py:103-106 | each walked file is taken by exactly one of the two operations |
| FileEncryptor.NamesSplit | src/modules/file_encryptor.py:103-106 | per folder, the two operations split the names |
| FileEncryptor.DecryptTargetsRoundTrip | src/modules/file_encryptor.py:95-106 | every file to decrypt ends with ".enc" and is the encryption of its output |
| FileEncryptor.SaltRoundTrip | src/modules/file_encryptor.py:131-150 | decryption reads the salt file that encryption wrote |
| FileEncryptor.RepeatedEncryptionTakesOldSalt | src/modules/file_encryptor.py:100-133 | encrypting a folder twice also encrypts the old salt file |
| FileEncryptor.Successes | src/modules/file_encryptor.py:168-169 | no more successes than files |
| FileEncryptor.SuccessesAll | src/modules/file_encryptor.py:179 | every file succeeds exactly when none failed |
| FileEncryptor.ProcessFiles | src/modules/file_encryptor.py:160-170 | the loop counts the successes and processes every file in order |
| FileEncryptor.Run | src/modules/file_encryptor.py:109-189 | the report is that of the operation |
| FileEncryptor.RunSucceedsIff | src/modules/file_encryptor.py:119-186 | success exactly when there are files, the salt is written or found, and no file failed |
| FileEncryptor.RunProcessesAll | src/modules/file_encryptor.py:160-170 | once the salt is there, every file is processed with it |
| FileEncryptor.SingleFileRoundTrip | src/modules/file_encryptor.py:95-97 | a single file is encrypted alone, its output decrypted alone with the same salt, back to its name |
| FileEncryptor.ValidatePassword | src/modules/file_encryptor.py:251-265 | accepted exactly when non-empty and, for encryption, confirmed; each refusal with its message |
| ScheduleCreator.LoadCommandData | src/modules/schedule_creator.py:41-47 | one item per record, and the map from display text to record |
| ScheduleCreator.CommandDataLast | src/modules/schedule_creator.py:43-47 | a text maps to its last record |
| ScheduleCreator.CommandDataKeys | src/modules/schedule_creator.py:43-47 | the map's keys are exactly the display texts |
| ScheduleCreator.Selected | src/modules/schedule_creator.py:119-122 | no more days than boxes |
| ScheduleCreator.SelectedDays | src/modules/schedule_creator.py:119-122 | the loop collects the checked days |
| ScheduleCreator.SelectedMeaning | src/modules/schedule_creator.py:119-122 | a day is selected exactly when its box is checked, in week order; none exactly when no box is |
| ScheduleCreator.OnCreateOutcome | src/modules/schedule_creator.py:104-126 | each refusal exactly in its case, with its message; otherwise the chosen command, time and checked days |
| ScheduleCreator.WindowsDaysSplit | src/modules/schedule_creator.py:162-172 | the day field reads back as one three-letter code per selected day |
| ScheduleCreator.SchtasksArgs | src/modules/schedule_creator.py:156-185 | the command line is built exactly for a string command |
| ScheduleCreator.Pad2Digits | src/modules/schedule_creator.py:173 | a number below 100 is two digits |
| ScheduleCreator.TimeStringDigits | src/modules/schedule_creator.py:173 | the start time is HH:MM |
| ScheduleCreator.ReplaceSpaces | src/modules/schedule_creator.py:158 | spaces become underscores, nothing else changes |
| ScheduleCreator.WindowsTaskNameShape | src/modules/schedule_creator.py:158 | the task name has the launcher's prefix and no space |
| ScheduleCreator.CronDayCode | src/modules/schedule_creator.py:211-219 | every day has a one-digit cron code |
| ScheduleCreator.CronDayCodes | src/modules/schedule_creator.py:221 | one code per selected day, in order |
| ScheduleCreator.CronDaysShape | src/modules/schedule_creator.py:221 | the day field is digits and commas, without whitespace |
| ScheduleCreator.CronEntryWords | src/modules/schedule_creator.py:224 | the cron line's words are minute, hour, two stars, the day field and the command's words |
| ScheduleViewer.DayNames | src/modules/schedule_viewer.py:266-269 | each field is named after stripping |
| ScheduleViewer.EntryOf | src/modules/schedule_viewer.py:221-245 | a cron line yields at most one job |
| ScheduleViewer.ScanLine | src/modules/schedule_viewer.py:213-248 | one line of the scan, as the step function |
| ScheduleViewer.GetLinuxCronJobs | src/modules/schedule_viewer.py:198-257 | the jobs listed are those of the scan |
| ScheduleViewer.DeleteLines | src/modules/schedule_viewer.py:336-350 | deletion never adds lines |
| ScheduleViewer.FilterLine | src/modules/schedule_viewer.py:340-350 | one line of the filter, as the step function |
| ScheduleViewer.DeleteLinuxCronJob | src/modules/schedule_viewer.py:321-353 | the new crontab is that of the filter |
| ScheduleViewer.TaskCommand | src/modules/schedule_viewer.py:175-179 | the command is that of the first "Task To Run:" line |
| ScheduleViewer.TaskOfRow | src/modules/schedule_viewer.py:158-187 | one row yields the tasks of the row function |
| ScheduleViewer.GetWindowsTasks | src/modules/schedule_viewer.py:143-196 | the tasks listed are those of the rows |
| ScheduleViewer.ParseConcat | src/modules/schedule_viewer.py:213-248 | scanning two blocks is scanning each with the carried marker |
| ScheduleViewer.ParsedJobShape | src/modules/schedule_viewer.py:221-243 | each job is active, of kind cron_job, and its command is the sixth word on |
| ScheduleViewer.MarkerThenEntry | src/modules/schedule_viewer.py:215-246 | a marker followed by a cron line gives that line's job |
| ScheduleViewer.InterruptionDropsPending | src/modules/schedule_viewer.py:247-248 | a blank line or another comment forgets the marker |
| ScheduleViewer.NothingWithoutMarker | src/modules/schedule_viewer.py:219 | without markers no job is listed |
| ScheduleViewer.DayNumbers | src/modules/schedule_viewer.py:261-264 | 0 and 7 are Sunday, 1 to 6 Monday to Saturday |
| ScheduleViewer.UnknownDayPassesThrough | src/modules/schedule_viewer.py:271 | an unknown field is shown as it is |
| ScheduleViewer.ConvertDayList | src/modules/schedule_viewer.py:266-269 | a list of days is shown name by name, joined by ", " |
| ScheduleViewer.ConvertOneDay | src/modules/schedule_viewer.py:270-271 | one field is shown by its name |
| ScheduleViewer.DailyText | src/modules/schedule_viewer.py:231-236 | "*" days are shown as daily |
| ScheduleViewer.DeleteConcat | src/modules/schedule_viewer.py:336-353 | the filter on two blocks is the filter on each with the carried flag |
| ScheduleViewer.DeleteKeepsAll | src/modules/schedule_viewer.py:336-353 | a crontab without the marker is kept whole |
| ScheduleViewer.DeleteRemovesMarkers | src/modules/schedule_viewer.py:336-353 | no marker of the job is left, and the kept lines are in order |
| ScheduleViewer.WindowsRowsShape | src/modules/schedule_viewer.py:156-187 | every task is a launcher row of the listing, with its name, status and schedule fields |
| ScheduleViewer.WindowsRowsComplete | src/modules/schedule_viewer.py:156-187 | every non-blank row with the task prefix, eight fields or more and known details is listed with its name, command, schedule and status |
| ScheduleViewer.HeaderSkipped | src/modules/schedule_viewer.py:155-157 | the header line is never listed |
| ScheduleViewer.OtherTasksIgnored | src/modules/schedule_viewer.py:158 | a row without the launcher's prefix yields no task |
| CronRoundTrip.CrontabLines | src/modules/schedule_creator.py:242-243 | the new crontab is the old lines, the marker, the entry and a final empty line |
| CronRoundTrip.CommentIsMarker | src/modules/schedule_creator.py:242 | the comment written is the marker the viewer looks for, naming the job |
| CronRoundTrip.EntryIsPlain | src/modules/schedule_creator.py:224 | the cron line is neither blank nor a comment and holds no newline |
| CronRoundTrip.CommandHasWord | src/modules/schedule_viewer.py:221 | a command ending in a non-space has a word |
| CronRoundTrip.CreatedLinesParse | src/modules/schedule_viewer.py:213-248 | the three written lines read back as the created job |
| CronRoundTrip.CreatedEntry | src/modules/schedule_viewer.py:221-245 | the cron line reads back as the created job |
| CronRoundTrip.CreatedJobIsListed | src/modules/schedule_creator.py:224-243 | after creation the listing is the old one plus the created job |
| CronRoundTrip.DayCodeName | src/modules/schedule_viewer.py:261-264 | each day's code is shown as that day |
| CronRoundTrip.ShownDays | src/modules/schedule_viewer.py:266-269 | the day field is shown as the selected days |
| CronRoundTrip.DayNamesOfCodes | src/modules/schedule_creator.py:221 | the codes name the selected days back |
| CronRoundTrip.CreatedScheduleText | src/modules/schedule_viewer.py:231-234 | the job shows its time and its days |
| CronRoundTrip.CreatedLinesDelete | src/modules/schedule_viewer.py:336-353 | deleting the job removes its two lines |
| CronRoundTrip.CreatedJobIsDeleted | src/modules/schedule_viewer.py:336-353 | deleting a created job gives back the old crontab |
| CronRoundTrip.CreateListDelete | src/modules/schedule_creator.py:224-243 | create, list, delete: the job is listed and then fully removed |

## Left out

- The Qt user interface is not modelled: windows, menus, dialogs, message
  boxes, widgets, icons, and the history menu of `populate_menu`. Only the
  data each dialog computes is modelled.
- `add_menu_items` (menu building) is modelled only through the action each
  entry gets (`TrayCore.MenuAction`). Creating submenus is left out. In the
  source a mapping without `"command"`, a bare `{"ref": path}` included,
  becomes a submenu, and top-level groups are entered with an empty group
  name (`src/core/tray_app.py:101`). So the Favorites branch of
  `MenuAction` is reached only by an entry that carries both `"ref"` and
  `"command"` inside a nested group named "Favorites". The tray never reads
  the favorites file; `TrayCore.AddedFavoriteResolves` states what
  resolution would give, not that the tray shows the favorite.
- Running commands is left out. This covers `subprocess`, output windows,
  `crontab` and `pkexec` installation, and running `schtasks`. The current
  crontab and the `schtasks` output are parameters.
- The platform dispatch in `get_schedules`, `create_schedule` and
  `delete_schedule`, and `_delete_windows_task`, are left out. They only
  choose a path or run a subprocess.
- The cryptography in the file encryptor is left out: Fernet, PBKDF2 and
  `os.urandom`. So are the QThread signals and the floating-point progress
  value. The model covers which files are processed, their names and salt
  files, and the report.
- Logging is not modelled, and neither are `print` or the exceptions that
  only log.
- `Path.expanduser`, the base directory and `get_base_dir` are left out.
  The configuration directory is a parameter.
- The singleton `__new__` of `ConfigManager` is left out: each object is a
  separate store.
- `single_instance.py` is not part of this model.
- `backup_restore.py`, `import_export.py` and `utils.py` are not part of
  this model. They are thin dialogs over the store.
- The search dialog duplicated in `src/tray_app.py` (lines 172-223) is not
  modelled separately. It is the same filter as `CommandSearch`.
- The old favorites and creator modules call `save_commands` and restart
  the application afterwards. The model returns the tree to be saved.
- JsonDoc: `JNum` holds an integer. JSON numbers with a fraction or an
  exponent are not modelled.
- JsonDoc: Python's `True == 1` and `1 == 1.0` equalities are not modelled.
  Two values compare equal only when they are structurally the same, so two
  objects with the same pairs in another order compare unequal (Python's
  `dict` comparison ignores order; this matters for `resolved != item` in
  `TrayCore.MenuAction`).
- Text.Lower: lowers ASCII letters only. Python's `str.lower` also folds
  other scripts.
- ScheduleCreator.CreateLinuxCron: requires a string command. The f-string
  at `src/modules/schedule_creator.py:224` would write Python's `str()` of
  any other value (`None`, `['ls']`) into the cron line. The model does not
  render that text.
- ScheduleCreator.SchtasksArgs: states only when the command line exists.
  Its fields are stated by `TimeStringDigits`, `WindowsTaskNameShape` and
  `WindowsDaysSplit`. A failing `schtasks` run is not modelled.
- LegacyFavorites.StoredFavoriteMigrates: requires the group to hold its
  icon beside the favorite. A group left with one favorite and no icon has
  length one, and the `len(...) <= 1` test at
  `src/core/config_manager.py:559` then skips the migration.
- TrayCore.Execute: the menus rebuilt after a run (`reload_history_commands`)
  are not modelled; only the store's side of the reload is.
- CronRoundTrip.CreatedLinesParse: assumes a job name and a command
  without newlines or surrounding whitespace. The same holds for
  CronRoundTrip.CreatedJobIsListed, CronRoundTrip.CreatedJobIsDeleted and
  CronRoundTrip.CreateListDelete. Other names do not read back as written.
- FileEncryptor.Run: does not model an exception raised in the middle of
  the file loop. In the source that path skips the salt removal at
  `src/modules/file_encryptor.py:175-177` and leaves the salt file in
  place. Exceptions other than the salt write and the per-file failures are
  not modelled either. The operation is encrypt or decrypt only.
- StoreSpec.Migrate: keeps the source's write into the cached tree before
  the save. This is harmless there, because deleting a group keeps a valid
  tree valid (`StoreLaws.DeleteKeepsValid`).

## Findings

| source | as written | input that shows it | evidently intended | confidence | as-written member | corrected member |
|---|---|---|---|---|---|---|
| src/core/config_manager.py:394-411 | `import_command_group` merges the imported groups into the dict returned by `get_commands`, which is the cache itself, and then calls `save_commands`. When validation rejects the merged tree the save is refused, but the cache already holds the invalid tree, and later loads return it. | cache `{}`, import file `{"G": "x"}`, overwrite off: the save fails with "group G is not a mapping" and the cache becomes `{"G": "x"}` | the cache changes only after a successful save, as `save_commands` does for its own argument | not executed | StoreLaws.ImportAsWrittenBreaksCache | StoreLaws.ImportRefusedKeepsCache |

The as-written import is `StoreSpec.ImportAsWritten`. The corrected
`StoreSpec.Import` merges into a copy. `StoreLaws.ImportKeepsInv` proves that
it keeps the store invariant, and `ConfigStore.ConfigManager.ImportCommandGroup`
uses it.
