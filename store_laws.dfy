/** What the `ConfigManager` operations promise, proved about their
    specifications in StoreSpec. */
module StoreLaws {
  import opened Wrappers
  import opened JsonDoc
  import opened Text
  import opened Validation
  import opened HistoryRules
  import opened BackupNames
  import opened StoreSpec

  // ---------------------------------------------------------------------
  // Paths.

  lemma CharAfterDir(dir: string, tail: string)
    requires |tail| >= 2
    ensures (dir + tail)[|dir| + 1] == tail[1]
  {
  }

  /** A backup never lands on one of the live configuration files. */
  lemma BackupFileDistinct(env: Env, stamp: string)
    ensures BackupFile(env, stamp) != CommandsFile(env)
    ensures BackupFile(env, stamp) != WinCommandsFile(env)
    ensures BackupFile(env, stamp) != HistoryFile(env)
    ensures BackupFile(env, stamp) != FavoritesFile(env)
    ensures BackupFile(env, stamp) != LiveFile(env)
  {
    var d := env.configDir;
    var b := BackupFile(env, stamp);
    assert b == d + ("/backups/" + BackupName(stamp));
    CharAfterDir(d, "/backups/" + BackupName(stamp));
    CharAfterDir(d, "/commands.json");
    CharAfterDir(d, "/win-commands.json");
    CharAfterDir(d, "/history.json");
    CharAfterDir(d, "/favorites.json");
  }

  /** Backups taken at different timestamps have different paths. */
  lemma BackupFileInjective(env: Env, s1: string, s2: string)
    requires s1 != s2
    ensures BackupFile(env, s1) != BackupFile(env, s2)
  {
    var p := BackupDir(env) + "/commands_";
    assert BackupFile(env, s1) == p + s1 + ".json";
    assert BackupFile(env, s2) == p + s2 + ".json";
    if |s1| == |s2| {
      var i :| 0 <= i < |s1| && s1[i] != s2[i];
      assert (p + s1 + ".json")[|p| + i] == s1[i];
      assert (p + s2 + ".json")[|p| + i] == s2[i];
    }
  }

  // ---------------------------------------------------------------------
  // Loading and saving the command tree.

  /** The built-in default tree passes validation. */
  lemma DefaultIsValid(isWindows: bool)
    ensures Validate(DefaultCommands(isWindows)).None?
  {
    var tree := DefaultCommands(isWindows);
    ValidateMeansTreeOk(tree);
    var system := tree.fields[0].1;
    var utilities := tree.fields[1].1;
    forall i | 0 <= i < |system.fields|
      ensures ItemOk(system.fields[i].0, system.fields[i].1)
    {
      if i == 1 {
        DefaultEntryOk(system.fields[1].0, system.fields[1].1, false);
      } else if i == 2 {
        DefaultEntryOk(system.fields[2].0, system.fields[2].1, true);
      }
    }
    forall i | 0 <= i < |utilities.fields|
      ensures ItemOk(utilities.fields[i].0, utilities.fields[i].1)
    {
      if i == 1 {
        DefaultEntryOk(utilities.fields[1].0, utilities.fields[1].1, false);
      }
    }
    assert GroupOk(system) && GroupOk(utilities);
    forall i | 0 <= i < |tree.fields|
      ensures GroupOk(tree.fields[i].1)
    {
    }
  }

  /** Each default command entry has the shape the check accepts. */
  lemma DefaultEntryOk(name: string, item: Json, show: bool)
    requires item.JObj? && |item.fields| == 3 && item.fields[0].0 == "command" && item.fields[0].1.JStr?
    requires item.fields[1] == ("showOutput", JBool(show)) && item.fields[2] == ("confirm", JBool(false))
    ensures ItemOk(name, item)
  {
    var entry := item.fields;
    assert Get(entry, "command") == Some(entry[0].1);
    assert Get(entry, "showOutput") == Some(JBool(show));
    assert Get(entry, "confirm") == Some(JBool(false));
    assert !HasKey(entry, "prompt");
  }

  /** A cached tree is returned as it is without touching the files. */
  lemma GetCommandsCached(env: Env, st: Store)
    requires st.commands.Some?
    ensures GetCommands(env, st, false) == (st, Success(st.commands.value))
  {
  }

  /** A missing commands file is replaced by the default tree, which is
      then loaded and cached. */
  lemma GetCommandsCreatesDefault(env: Env, st: Store, refresh: bool)
    requires st.commands.None? || refresh
    requires ReadTarget(env, st.files) !in st.files
    requires ReadTarget(env, st.files) !in env.unwritable
    ensures var (st1, r) := GetCommands(env, st, refresh);
            r == Success(DefaultCommands(env.isWindows))
            && st1.files == st.files[ReadTarget(env, st.files) := JsonText(DefaultCommands(env.isWindows))]
            && st1.commands == Some(DefaultCommands(env.isWindows))
  {
    DefaultIsValid(env.isWindows);
  }

  /** A failed load leaves every cache as it was and changes no file but the
      one it tried to create. */
  lemma GetCommandsFailure(env: Env, st: Store, refresh: bool)
    requires GetCommands(env, st, refresh).1.Failure?
    ensures var st1 := GetCommands(env, st, refresh).0;
            st1.commands == st.commands && st1.history == st.history && st1.favorites == st.favorites
            && forall p :: p != ReadTarget(env, st.files) ==>
                 ((p in st1.files <==> p in st.files) && (p in st.files ==> st1.files[p] == st.files[p]))
  {
  }

  /** What `save_commands` does: it fails iff the tree is invalid or the live
      file cannot be written. A failure leaves every cache and the live file
      as they were. A success caches and writes the tree. Besides the live
      file, only the backup file can change, and it then holds the previous
      live content. */
  lemma SaveCommandsOutcome(env: Env, st: Store, doc: Json, stamp: string)
    ensures var (st1, err) := SaveCommands(env, st, doc, stamp);
            var live := LiveFile(env);
            var bak := BackupFile(env, stamp);
            (err.None? <==> Validate(doc).None? && live !in env.unwritable)
            && (Validate(doc).Some? ==> st1 == st && err == Some(Invalid(Validate(doc).value)))
            && st1.history == st.history && st1.favorites == st.favorites
            && (err.Some? ==>
                 (st1.commands == st.commands
                  && (live in st.files <==> live in st1.files)
                  && (live in st.files ==> st1.files[live] == st.files[live])))
            && (err.None? ==> st1.commands == Some(doc) && live in st1.files && st1.files[live] == JsonText(doc))
            && (forall p :: p != live && p != bak ==>
                 ((p in st1.files <==> p in st.files) && (p in st.files ==> st1.files[p] == st.files[p])))
            && (Validate(doc).None? && live in st.files && bak !in env.unwritable ==>
                 bak in st1.files && st1.files[bak] == st.files[live])
  {
    BackupFileDistinct(env, stamp);
  }

  /** Saving then reloading from disk gives back the saved tree. */
  lemma SaveThenReload(env: Env, st: Store, doc: Json, stamp: string, refresh: bool)
    requires SaveCommands(env, st, doc, stamp).1.None?
    ensures var st1 := SaveCommands(env, st, doc, stamp).0;
            GetCommands(env, st1, refresh) == (st1, Success(doc))
  {
    var st1 := SaveCommands(env, st, doc, stamp).0;
    BackupFileDistinct(env, stamp);
    assert ReadTarget(env, st1.files) == LiveFile(env);
  }

  /** Every operation on the command tree keeps the cache invariant. */
  lemma SaveKeepsInv(env: Env, st: Store, doc: Json, stamp: string)
    requires Inv(st)
    ensures Inv(SaveCommands(env, st, doc, stamp).0)
  {
  }

  // ---------------------------------------------------------------------
  // History.

  /** The list `add_to_history` returns: the new entry first, at most ten
      entries, no repeat of the new command, the survivors in their old
      order. It becomes the cache iff the history file can be written;
      otherwise the cache keeps the list as loaded. */
  lemma AddToHistoryOutcome(env: Env, st: Store, entry: Fields)
    requires AddToHistory(env, st, entry).1.Some?
    ensures var (st1, r) := AddToHistory(env, st, entry);
            var loaded := GetHistory(env, st, false);
            |r.value| <= 10 && r.value[0] == entry
            && (forall i :: 1 <= i < |r.value| ==> CommandOf(r.value[i]) != CommandOf(entry))
            && IsSubseq(r.value[1..], ConfigItems(loaded.1).value)
            && (HistoryFile(env) !in env.unwritable ==>
                  st1.history == Some(ToJson(r.value)) && st1.files[HistoryFile(env)] == JsonText(ToJson(r.value)))
            && (HistoryFile(env) in env.unwritable ==> st1 == loaded.0)
            && st1.commands == st.commands && st1.favorites == st.favorites
  {
    var loaded := GetHistory(env, st, false);
    PrependShape(ConfigItems(loaded.1).value, entry);
  }

  /** `add_to_history` raises exactly when iterating the loaded history
      raises; the store is then as loading the history left it. */
  lemma AddToHistoryFailure(env: Env, st: Store, entry: Fields)
    ensures AddToHistory(env, st, entry).1.None? <==> ConfigItems(GetHistory(env, st, false).1).None?
    ensures AddToHistory(env, st, entry).1.None? ==> AddToHistory(env, st, entry).0 == GetHistory(env, st, false).0
  {
  }

  /** Running the same command twice in a row leaves the same history as
      running it once. */
  lemma AddToHistoryTwice(env: Env, st: Store, entry: Fields)
    requires AddToHistory(env, st, entry).1.Some?
    requires HistoryFile(env) !in env.unwritable
    ensures var (st1, r1) := AddToHistory(env, st, entry);
            AddToHistory(env, st1, entry) == (st1, r1)
  {
    var (st1, r1) := AddToHistory(env, st, entry);
    ItemsToJson(r1.value);
    PrependIdempotent(ConfigItems(GetHistory(env, st, false).1).value, entry);
    assert GetHistory(env, st1, false) == (st1, ToJson(r1.value));
    assert Prepend(r1.value, entry) == r1.value;
    assert st1.files[HistoryFile(env) := JsonText(ToJson(r1.value))] == st1.files;
  }

  /** After clearing, the history reads back as the empty list. */
  lemma ClearThenGet(env: Env, st: Store, refresh: bool)
    requires HistoryFile(env) !in env.unwritable
    ensures GetHistory(env, ClearHistory(env, st), refresh).1 == JArr([])
  {
  }

  /** A saved history reads back from disk. */
  lemma SaveHistoryThenReload(env: Env, st: Store, h: Json)
    requires HistoryFile(env) !in env.unwritable
    ensures GetHistory(env, SaveHistory(env, st, h), true) == (SaveHistory(env, st, h), h)
  {
  }

  // ---------------------------------------------------------------------
  // Favorites.

  /** Walking on from a missing entry only ever finds `{}`. */
  lemma {:induction false} WalkEmpty(parts: seq<string>)
    ensures WalkDefault(JObj([]), parts) == Some(JObj([]))
  {
    if parts != [] {
      WalkEmpty(parts[1..]);
    }
  }

  /** `add_to_favorites` succeeds exactly when the tree loads, the path has
      two parts or more, it names a command entry and the favorites value is a
      mapping. It then stores `{"ref": path}` under the label, replacing any
      favorite of that name and keeping all others. */
  lemma AddFavoriteOutcome(env: Env, st: Store, path: string, custom: Option<string>)
    requires Inv(st)
    ensures var (st1, ok) := AddFavorite(env, st, path, custom);
            var (st0, res) := GetCommands(env, st, false);
            var parts := Split(path, '.');
            (ok <==> res.Success? && |parts| >= 2
                     && FavoriteTarget(res.value, parts).Some? && IsCommandNode(FavoriteTarget(res.value, parts).value)
                     && GetFavorites(env, st0, false).1.JObj?)
            && st1.commands == st0.commands
            && (ok ==> var old_ := GetFavorites(env, st0, false).1;
                       var name := FavoriteLabel(custom, parts);
                       st1.favorites.Some? && st1.favorites.value.JObj?
                       && Get(st1.favorites.value.fields, name) == Some(RefEntry(path))
                       && (forall k :: k != name ==> Get(st1.favorites.value.fields, k) == Get(old_.fields, k))
                       && (FavoritesFile(env) !in env.unwritable ==>
                             st1.files[FavoritesFile(env)] == JsonText(st1.favorites.value)))
  {
    var (st0, res) := GetCommands(env, st, false);
    var parts := Split(path, '.');
    if res.Success? && |parts| >= 2 {
      var fav := GetFavorites(env, st0, false).1;
      if fav.JObj? {
        forall k
          ensures Get(Put(fav.fields, FavoriteLabel(custom, parts), RefEntry(path)), k)
                  == if k == FavoriteLabel(custom, parts) then Some(RefEntry(path)) else Get(fav.fields, k)
        {
          GetPut(fav.fields, FavoriteLabel(custom, parts), RefEntry(path), k);
        }
      }
    }
  }

  /** `remove_from_favorites` reports True exactly when the favorites value
      is a mapping holding the label; it then deletes that label only. */
  lemma RemoveFavoriteOutcome(env: Env, st: Store, name: string)
    ensures var (st1, ok) := RemoveFavorite(env, st, name);
            var fav := GetFavorites(env, st, false).1;
            (ok <==> fav.JObj? && HasKey(fav.fields, name))
            && st1.commands == st.commands
            && (ok ==> st1.favorites.Some? && st1.favorites.value.JObj?
                       && !HasKey(st1.favorites.value.fields, name)
                       && forall k :: k != name ==> Get(st1.favorites.value.fields, k) == Get(fav.fields, k))
            && (!ok ==> st1 == GetFavorites(env, st, false).0)
  {
    var fav := GetFavorites(env, st, false).1;
    if fav.JObj? && HasKey(fav.fields, name) {
      forall k
        ensures Get(Delete(fav.fields, name), k) == if k == name then None else Get(fav.fields, k)
      {
        GetDelete(fav.fields, name, k);
      }
    }
  }

  // ---------------------------------------------------------------------
  // Merging groups (import) and favorites (migration).

  /** After the assignments, a key holds the value it was last given, or
      its old value when it was not assigned. */
  lemma {:induction false} MergeGet(fs: Fields, pairs: Fields, k: string)
    requires DistinctKeys(pairs)
    decreases pairs
    ensures Get(Merge(fs, pairs), k) == if HasKey(pairs, k) then Get(pairs, k) else Get(fs, k)
  {
    if pairs != [] {
      var rest := pairs[1..];
      assert DistinctKeys(rest);
      MergeGet(Put(fs, pairs[0].0, pairs[0].1), rest, k);
      GetPut(fs, pairs[0].0, pairs[0].1, k);
      assert Keys(pairs) == [pairs[0].0] + Keys(rest);
      if k == pairs[0].0 {
        assert !HasKey(rest, k) by {
          forall i | 0 <= i < |rest|
            ensures Keys(rest)[i] != k
          {
            assert pairs[i + 1].0 != pairs[0].0;
          }
        }
      }
    }
  }

  /** Groups already in the tree keep their positions; new groups follow. */
  lemma {:induction false} MergeKeysPrefix(fs: Fields, pairs: Fields)
    decreases pairs
    ensures |Keys(fs)| <= |Keys(Merge(fs, pairs))|
    ensures Keys(Merge(fs, pairs))[..|fs|] == Keys(fs)
  {
    if pairs != [] {
      var fs1 := Put(fs, pairs[0].0, pairs[0].1);
      KeysPut(fs, pairs[0].0, pairs[0].1);
      MergeKeysPrefix(fs1, pairs[1..]);
      assert Keys(fs1)[..|fs|] == Keys(fs);
    }
  }

  lemma {:induction false} DeleteDistinct(fs: Fields, k: string)
    requires DistinctKeys(fs)
    ensures DistinctKeys(Delete(fs, k))
  {
    if fs != [] {
      DeleteDistinct(fs[1..], k);
      if fs[0].0 != k {
        var r := Delete(fs, k);
        assert r == [fs[0]] + Delete(fs[1..], k);
        forall j | 0 < j < |r|
          ensures r[0].0 != r[j].0
        {
          DeleteKeeps(fs[1..], k, j - 1);
          var m :| 0 <= m < |fs[1..]| && fs[1..][m] == r[j];
          assert fs[m + 1] == r[j];
        }
      }
    }
  }

  /** Removing a group keeps a valid tree valid. */
  lemma DeleteKeepsValid(tree: Fields, k: string)
    requires Validate(JObj(tree)).None?
    ensures Validate(JObj(Delete(tree, k))).None?
  {
    ValidateMeansTreeOk(JObj(tree));
    var r := Delete(tree, k);
    forall i | 0 <= i < |r|
      ensures GroupOk(r[i].1)
    {
      DeleteKeeps(tree, k, i);
    }
    ValidateMeansTreeOk(JObj(r));
  }

  /** Writing a key's own value back changes nothing. */
  lemma {:induction false} PutSame(fs: Fields, k: string)
    requires HasKey(fs, k)
    ensures Put(fs, k, Get(fs, k).value) == fs
  {
    if fs[0].0 != k {
      assert Keys(fs) == [fs[0].0] + Keys(fs[1..]);
      PutSame(fs[1..], k);
    }
  }

  // ---------------------------------------------------------------------
  // Import and export.

  /** Import keeps the cache invariant: the merged tree is only cached after
      it passed validation. */
  lemma ImportKeepsInv(env: Env, st: Store, importFile: string, overwrite: bool, stamp: string)
    requires Inv(st)
    ensures Inv(Import(env, st, importFile, overwrite, stamp).0)
  {
  }

  /** A file that is missing, not JSON, or not a mapping is refused with
      nothing changed. */
  lemma ImportRefusesNonMapping(env: Env, st: Store, importFile: string, overwrite: bool, stamp: string)
    requires Inv(st)
    requires importFile !in st.files || !st.files[importFile].JsonText? || !st.files[importFile].doc.JObj?
    ensures Import(env, st, importFile, overwrite, stamp) == (st, false)
  {
  }

  /** A name clash without `overwrite` is refused and the tree is untouched. */
  lemma ImportConflictKeepsTree(env: Env, st: Store, importFile: string, stamp: string)
    requires Inv(st)
    requires importFile in st.files && st.files[importFile].JsonText? && st.files[importFile].doc.JObj?
    requires GetCommands(env, st, false).1.Success?
    requires Conflicts(GetCommands(env, st, false).1.value.fields, st.files[importFile].doc.fields)
    ensures Import(env, st, importFile, false, stamp) == (GetCommands(env, st, false).0, false)
    ensures GetCommands(env, st, false).0.commands == Some(GetCommands(env, st, false).1.value)
  {
  }

  /** After a successful import every imported group has its imported
      value, every other group keeps its value, existing groups keep their
      order, and one save wrote the merged tree. A failed import leaves the
      cached tree as it was after loading. */
  lemma ImportOutcome(env: Env, st: Store, importFile: string, overwrite: bool, stamp: string)
    requires Inv(st)
    requires importFile in st.files && st.files[importFile].JsonText? && st.files[importFile].doc.JObj?
    requires DistinctKeys(st.files[importFile].doc.fields)
    requires GetCommands(env, st, false).1.Success?
    ensures var (st1, ok) := Import(env, st, importFile, overwrite, stamp);
            var (st0, res) := GetCommands(env, st, false);
            var incoming := st.files[importFile].doc.fields;
            var tree := res.value.fields;
            (!ok ==> st1.commands == st0.commands)
            && (ok ==>
                  (st1.commands.Some? && st1.commands.value.JObj?
                   && st1.files[LiveFile(env)] == JsonText(st1.commands.value)
                   && |tree| <= |st1.commands.value.fields|
                   && Keys(st1.commands.value.fields)[..|tree|] == Keys(tree)
                   && forall k :: Get(st1.commands.value.fields, k)
                                  == if HasKey(incoming, k) then Get(incoming, k) else Get(tree, k)))
  {
    var (st0, res) := GetCommands(env, st, false);
    var incoming := st.files[importFile].doc.fields;
    var tree := res.value.fields;
    MergeKeysPrefix(tree, incoming);
    forall k
      ensures Get(Merge(tree, incoming), k) == if HasKey(incoming, k) then Get(incoming, k) else Get(tree, k)
    {
      MergeGet(tree, incoming, k);
    }
  }

  /** `import_command_group` succeeds exactly when the import file holds a
      mapping, the tree loads, no imported group clashes with an existing
      one unless overwriting is asked for, the merged tree is valid and the
      live file can be written. */
  lemma ImportSucceedsIff(env: Env, st: Store, importFile: string, overwrite: bool, stamp: string)
    requires Inv(st)
    ensures Import(env, st, importFile, overwrite, stamp).1 <==>
              importFile in st.files && st.files[importFile].JsonText? && st.files[importFile].doc.JObj?
              && GetCommands(env, st, false).1.Success?
              && (var tree := GetCommands(env, st, false).1.value.fields;
                  var incoming := st.files[importFile].doc.fields;
                  (overwrite || !Conflicts(tree, incoming))
                  && TreeOk(JObj(Merge(tree, incoming)))
                  && LiveFile(env) !in env.unwritable)
  {
    if importFile in st.files && st.files[importFile].JsonText? && st.files[importFile].doc.JObj? {
      var (st1, res) := GetCommands(env, st, false);
      if res.Success? {
        var merged := JObj(Merge(res.value.fields, st.files[importFile].doc.fields));
        ValidateMeansTreeOk(merged);
        SaveCommandsOutcome(env, st1, merged, stamp);
      }
    }
  }

  /** `export_command_group` succeeds exactly when the tree loads, holds the
      group and the target can be written; the file then holds
      `{group: tree[group]}` and no cache changes. */
  lemma ExportOutcome(env: Env, st: Store, group: string, exportFile: string)
    requires Inv(st)
    ensures var (st1, ok) := Export(env, st, group, exportFile);
            var (st0, res) := GetCommands(env, st, false);
            (ok <==> res.Success? && HasKey(res.value.fields, group) && exportFile !in env.unwritable)
            && st1.commands == st0.commands && st1.history == st0.history && st1.favorites == st0.favorites
            && (ok ==> st1.files == st0.files[exportFile := JsonText(JObj([(group, Get(res.value.fields, group).value)]))])
            && (!ok ==> st1 == st0)
  {
  }

  /** Exporting a group and importing the file back with `overwrite` leaves
      the cached tree as it was. */
  lemma ExportThenImport(env: Env, st: Store, group: string, exportFile: string, stamp: string)
    requires Inv(st) && st.commands.Some?
    requires Export(env, st, group, exportFile).1
    ensures var st1 := Export(env, st, group, exportFile).0;
            Import(env, st1, exportFile, true, stamp).0.commands == st.commands
  {
    var tree := st.commands.value.fields;
    ValidateMeansTreeOk(st.commands.value);
    var st1 := Export(env, st, group, exportFile).0;
    var v := Get(tree, group).value;
    assert st1.files[exportFile] == JsonText(JObj([(group, v)]));
    PutSame(tree, group);
    assert Merge(tree, [(group, v)]) == Put(tree, group, v);
  }

  // ---------------------------------------------------------------------
  // Migration.

  /** Without a "Favorites" group of two keys or more the migration does
      nothing beyond loading the tree, and reports success. */
  lemma MigrateNothingToDo(env: Env, st: Store, stamp: string)
    requires Inv(st)
    requires GetCommands(env, st, false).1.Success?
    requires var tree := GetCommands(env, st, false).1.value.fields;
             !HasKey(tree, "Favorites") || (Get(tree, "Favorites").value.JObj? && KeyCount(Get(tree, "Favorites").value.fields) <= 1)
    ensures Migrate(env, st, stamp) == (GetCommands(env, st, false).0, true)
  {
  }

  /** A migration that goes ahead copies every non-icon entry of the old
      "Favorites" group into the favorites (the group's entries win), keeps
      the other favorites, and drops the group from the cached tree, which
      stays valid. */
  lemma MigrateOutcome(env: Env, st: Store, stamp: string)
    requires Inv(st)
    requires GetCommands(env, st, false).1.Success?
    requires var tree := GetCommands(env, st, false).1.value.fields;
             HasKey(tree, "Favorites") && Get(tree, "Favorites").value.JObj?
             && KeyCount(Get(tree, "Favorites").value.fields) > 1
             && DistinctKeys(Get(tree, "Favorites").value.fields)
    requires GetFavorites(env, GetCommands(env, st, false).0, false).1.JObj?
    ensures var (st1, ok) := Migrate(env, st, stamp);
            var (st0, res) := GetCommands(env, st, false);
            var group := Get(res.value.fields, "Favorites").value.fields;
            var fav := GetFavorites(env, st0, false).1.fields;
            Inv(st1)
            && st1.commands == Some(JObj(Delete(res.value.fields, "Favorites")))
            && st1.favorites.Some? && st1.favorites.value.JObj?
            && (forall k :: Get(st1.favorites.value.fields, k)
                            == if k != "icon" && HasKey(group, k) then Get(group, k) else Get(fav, k))
            && (ok <==> LiveFile(env) !in env.unwritable)
  {
    var (st0, res) := GetCommands(env, st, false);
    var tree := res.value.fields;
    var group := Get(tree, "Favorites").value.fields;
    var moving := Delete(group, "icon");
    var fav := GetFavorites(env, st0, false).1.fields;
    MigrateMerge(group, fav);
    DeleteKeepsValid(tree, "Favorites");
    var nf := JObj(Merge(fav, moving));
    var st3 := SaveFavorites(env, GetFavorites(env, st0, false).0.(favorites := Some(nf)), nf);
    var newTree := JObj(Delete(tree, "Favorites"));
    MigrateSaves(env, st, stamp);
    assert st3.favorites == Some(nf);
    SaveCommandsOutcome(env, st3.(commands := Some(newTree)), newTree, stamp);
  }

  /** The favorites a migration moves: every key of the group but "icon",
      over the favorites already stored. */
  lemma MigrateMerge(group: Fields, fav: Fields)
    requires KeyCount(group) > 1 && DistinctKeys(group)
    ensures Delete(group, "icon") != []
    ensures forall k :: Get(Merge(fav, Delete(group, "icon")), k)
                        == if k != "icon" && HasKey(group, k) then Get(group, k) else Get(fav, k)
  {
    var moving := Delete(group, "icon");
    KeyCountOther(group, "icon");
    var i :| 0 <= i < |group| && group[i].0 != "icon";
    assert moving != [] by {
      GetDelete(group, "icon", group[i].0);
      assert HasKey(group, group[i].0) by { assert Keys(group)[i] == group[i].0; }
    }
    DeleteDistinct(group, "icon");
    forall k
      ensures Get(Merge(fav, moving), k) == if k != "icon" && HasKey(group, k) then Get(group, k) else Get(fav, k)
    {
      MergeGet(fav, moving, k);
      GetDelete(group, "icon", k);
    }
  }

  /** A migration with favorites to move saves the merged favorites, then
      the tree without its Favorites group. */
  lemma MigrateSaves(env: Env, st: Store, stamp: string)
    requires Inv(st)
    requires GetCommands(env, st, false).1.Success?
    requires var tree := GetCommands(env, st, false).1.value.fields;
             HasKey(tree, "Favorites") && Get(tree, "Favorites").value.JObj?
             && KeyCount(Get(tree, "Favorites").value.fields) > 1
             && Delete(Get(tree, "Favorites").value.fields, "icon") != []
    requires GetFavorites(env, GetCommands(env, st, false).0, false).1.JObj?
    ensures var (st0, res) := GetCommands(env, st, false);
            var tree := res.value.fields;
            var (st2, fav) := GetFavorites(env, st0, false);
            var nf := JObj(Merge(fav.fields, Delete(Get(tree, "Favorites").value.fields, "icon")));
            var st3 := SaveFavorites(env, st2.(favorites := Some(nf)), nf);
            var newTree := JObj(Delete(tree, "Favorites"));
            var saved := SaveCommands(env, st3.(commands := Some(newTree)), newTree, stamp);
            Migrate(env, st, stamp) == (saved.0, saved.1.None?)
  {
  }

  // ---------------------------------------------------------------------
  // Backups and restore.

  /** The listing is newest first, holds exactly the `commands_*.json`
      entries of the directory, and pairs each with its path. */
  lemma BackupListingOutcome(env: Env, names: seq<string>)
    ensures var r := BackupListing(env, Some(names));
            var sorted := SortDesc(BackupEntries(names));
            |r| == |sorted|
            && SortedDesc(sorted)
            && multiset(sorted) == multiset(BackupEntries(names))
            && (forall i :: 0 <= i < |r| ==>
                  (IsBackupName(sorted[i]) && r[i] == (BackupDir(env) + "/" + sorted[i], FormatStamp(sorted[i]))))
  {
    var sorted := SortDesc(BackupEntries(names));
    forall i | 0 <= i < |sorted|
      ensures IsBackupName(sorted[i])
    {
      assert sorted[i] in multiset(BackupEntries(names));
    }
  }

  /** A backup taken at `stamp` shows up in the listing under its path. */
  lemma BackupIsListed(env: Env, names: seq<string>, stamp: string)
    requires BackupName(stamp) in names
    ensures exists i :: 0 <= i < |BackupListing(env, Some(names))|
              && BackupListing(env, Some(names))[i].0 == BackupFile(env, stamp)
  {
    var sorted := SortDesc(BackupEntries(names));
    assert StartsWith(BackupName(stamp), "commands_") by {
      assert BackupName(stamp)[..9] == "commands_";
    }
    assert EndsWith(BackupName(stamp), ".json") by {
      assert BackupName(stamp)[|BackupName(stamp)| - 5..] == ".json";
    }
    assert BackupName(stamp) in multiset(sorted);
    var i :| 0 <= i < |sorted| && sorted[i] == BackupName(stamp);
    assert BackupListing(env, Some(names))[i].0 == BackupFile(env, stamp);
  }

  /** What a restore does: it snapshots the live file, then copies the backup
      over it and drops the cached tree. It fails iff the backup does not
      exist (after the snapshot), is the live file itself, or the live file
      cannot be written. A backup other than the new snapshot is never
      modified. */
  lemma RestoreOutcome(env: Env, st: Store, backupFile: string, stamp: string)
    ensures var (st1, ok) := Restore(env, st, backupFile, stamp);
            var live := LiveFile(env);
            var snap := BackupFile(env, stamp);
            var pre := Backup(env, st.files, stamp).0;
            (ok <==> backupFile in pre && backupFile != live && live !in env.unwritable)
            && (ok ==> st1.commands == None && st1.files[live] == pre[backupFile])
            && (!ok ==> st1.commands == st.commands)
            && st1.history == st.history && st1.favorites == st.favorites
            && (backupFile != snap && backupFile in st.files ==> backupFile in st1.files && st1.files[backupFile] == st.files[backupFile])
            && (live in st.files && snap !in env.unwritable ==> snap in st1.files && st1.files[snap] == st.files[live])
  {
    BackupFileDistinct(env, stamp);
  }

  /** After a restore, loading the tree reads the backup's content. */
  lemma RestoreThenLoad(env: Env, st: Store, backupFile: string, stamp: string, doc: Json)
    requires backupFile != BackupFile(env, stamp)
    requires backupFile in st.files && st.files[backupFile] == JsonText(doc) && Validate(doc).None?
    requires Restore(env, st, backupFile, stamp).1
    ensures var st1 := Restore(env, st, backupFile, stamp).0;
            GetCommands(env, st1, false) == (st1.(commands := Some(doc)), Success(doc))
  {
    BackupFileDistinct(env, stamp);
    var st1 := Restore(env, st, backupFile, stamp).0;
    assert ReadTarget(env, st1.files) == LiveFile(env);
  }

  /** A restore can be undone: restoring the snapshot it took (under a later
      timestamp) puts the previous live content back. */
  lemma RestoreIsReversible(env: Env, st: Store, backupFile: string, stamp1: string, stamp2: string)
    requires stamp1 != stamp2
    requires LiveFile(env) in st.files && LiveFile(env) !in env.unwritable
    requires BackupFile(env, stamp1) !in env.unwritable
    requires Restore(env, st, backupFile, stamp1).1
    ensures var st1 := Restore(env, st, backupFile, stamp1).0;
            var (st2, ok) := Restore(env, st1, BackupFile(env, stamp1), stamp2);
            ok && st2.files[LiveFile(env)] == st.files[LiveFile(env)]
  {
    BackupFileDistinct(env, stamp1);
    BackupFileDistinct(env, stamp2);
    BackupFileInjective(env, stamp1, stamp2);
    RestoreOutcome(env, st, backupFile, stamp1);
  }

  // ---------------------------------------------------------------------
  // The in-place merge of the source's import.

  /** As written, importing a group that is not a mapping is refused by the
      save, yet the cache keeps the merged tree, which no longer passes
      validation; later reads are served from it. */
  lemma ImportAsWrittenBreaksCache()
    ensures var env := Env(false, "/cfg", {});
            var st := Store(map["/i.json" := JsonText(JObj([("G", JStr("x"))]))], Some(JObj([])), None, None);
            Inv(st)
            && ImportAsWritten(env, st, "/i.json", false, "s") == (st.(commands := Some(JObj([("G", JStr("x"))]))), false)
            && Validate(ImportAsWritten(env, st, "/i.json", false, "s").0.commands.value) == Some(GroupNotObject("G"))
            && !Inv(ImportAsWritten(env, st, "/i.json", false, "s").0)
  {
  }

  /** The corrected import on the same input fails and leaves the manager as
      it was. */
  lemma ImportRefusedKeepsCache()
    ensures var env := Env(false, "/cfg", {});
            var st := Store(map["/i.json" := JsonText(JObj([("G", JStr("x"))]))], Some(JObj([])), None, None);
            Import(env, st, "/i.json", false, "s") == (st, false)
  {
  }
}
