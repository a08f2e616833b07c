/** The tray's own recent-commands list: it keeps the list in a field, loads
    it once from the history file, and rewrites the file after every change.
    It follows the same recent-commands rule as the configuration manager,
    but indexes `cmd['command']` directly, so an old entry without a command
    makes the add raise. */
module CommandHistoryModule {
  import opened Wrappers
  import opened JsonDoc
  import opened HistoryRules
  import opened StoreSpec

  /** The entry an add records, in the source's key order. */
  function NewEntry(title: Json, command: Json, confirm: Json, showOutput: Json, prompt: Json, timestamp: string): (e: Fields)
    ensures Get(e, "command") == Some(command)
    ensures CommandOf(e) == if command == JNull then None else Some(command)
  {
    [("title", title), ("command", command), ("confirm", confirm), ("showOutput", showOutput),
     ("prompt", prompt), ("timestamp", JStr(timestamp))]
  }

  /** The new list, or None when the comprehension raises. */
  function AddEntry(h: Json, entry: Fields): (r: Option<seq<Fields>>)
    ensures r.Some? <==> KeyedItems(h).Some?
  {
    match KeyedItems(h)
    case None => None
    case Some(items) => Some(Prepend(items, entry))
  }

  class CommandHistory {
    const path: string
    const writable: bool
    var files: Files
    var history: Json

    /** `__init__`: the history is loaded once. */
    constructor (files: Files, path: string, writable: bool)
      ensures this.files == files && this.path == path && this.writable == writable
      ensures history == LoadOr(files, path, JArr([]))
    {
      this.files := files;
      this.path := path;
      this.writable := writable;
      new;
      history := LoadHistory();
    }

    /** `load_history`: the file's JSON, or `[]` when the file is missing or
        is not JSON. */
    method LoadHistory() returns (h: Json)
      ensures h == LoadOr(files, path, JArr([]))
      ensures path !in files || files[path].NotJson? ==> h == JArr([])
    {
      if path in files && files[path].JsonText? {
        return files[path].doc;
      }
      return JArr([]);
    }

    /** `save_history`: a failed write is reported and otherwise ignored. */
    method SaveHistory()
      modifies this
      ensures files == (if writable then old(files)[path := JsonText(history)] else old(files))
      ensures history == old(history)
    {
      if writable {
        files := files[path := JsonText(history)];
      }
    }

    /** `add_to_history(title, command, confirm, show_output, prompt)`.
        False, with nothing changed, where the source raises. */
    method AddToHistory(title: Json, command: Json, confirm: Json, showOutput: Json, prompt: Json, timestamp: string)
      returns (ok: bool)
      modifies this
      ensures var r := AddEntry(old(history), NewEntry(title, command, confirm, showOutput, prompt, timestamp));
              ok == r.Some?
              && (ok ==> history == ToJson(r.value)
                         && files == if writable then old(files)[path := JsonText(history)] else old(files))
              && (!ok ==> history == old(history) && files == old(files))
    {
      var items := KeyedItems(history);
      if items.None? {
        return false;
      }
      history := ToJson(Prepend(items.value, NewEntry(title, command, confirm, showOutput, prompt, timestamp)));
      SaveHistory();
      return true;
    }

    /** `clear_history`, leaving the menu to the caller. */
    method ClearHistory()
      modifies this
      ensures history == JArr([])
      ensures files == if writable then old(files)[path := JsonText(JArr([]))] else old(files)
    {
      history := JArr([]);
      SaveHistory();
    }
  }

  /** After an add the new entry is first, the list has at most ten
      entries, no other entry has the new command, and the others are old
      entries in their old order. */
  lemma AddEntryShape(h: Json, entry: Fields)
    requires AddEntry(h, entry).Some?
    ensures var r := AddEntry(h, entry).value;
            |r| <= 10 && r[0] == entry
            && (forall i :: 1 <= i < |r| ==> CommandOf(r[i]) != CommandOf(entry))
            && IsSubseq(r[1..], KeyedItems(h).value)
  {
    PrependShape(KeyedItems(h).value, entry);
  }

  /** An old entry without a command makes the add fail. */
  lemma MissingCommandFails(h: seq<Fields>, i: int, entry: Fields)
    requires 0 <= i < |h| && !HasKey(h[i], "command")
    ensures AddEntry(ToJson(h), entry).None?
  {
    ItemsToJson(h);
  }

  /** On a history whose entries all have a command, the tray's list and
      the configuration manager's list agree after adding the same entry. */
  lemma AgreesWithManager(env: Env, st: Store, entry: Fields)
    requires st.history.Some?
    requires KeyedItems(st.history.value).Some?
    ensures AddEntry(st.history.value, entry) == StoreSpec.AddToHistory(env, st, entry).1
  {
  }

  /** The list read back after an add is the list the add built. */
  lemma AddThenReload(h: Json, entry: Fields)
    requires AddEntry(h, entry).Some?
    ensures ConfigItems(ToJson(AddEntry(h, entry).value)) == AddEntry(h, entry)
  {
    ItemsToJson(AddEntry(h, entry).value);
  }
}
