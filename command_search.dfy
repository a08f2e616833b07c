/** The "Search Commands" dialog: a list of every command's display text,
    filtered as the user types, and the run of the selected command. The
    records are those the tray's `get_all_commands` lists. */
module CommandSearch {
  import opened Wrappers
  import opened Text
  import opened TrayCore
  import opened JsonDoc

  /** The list's items, one per record in order. */
  method ListItems(records: seq<CommandRecord>) returns (items: seq<string>)
    ensures |items| == |records|
    ensures forall i :: 0 <= i < |records| ==> items[i] == DisplayText(records[i])
  {
    items := [];
    for i := 0 to |records|
      invariant |items| == i
      invariant forall k :: 0 <= k < i ==> items[k] == DisplayText(records[k])
    {
      items := items + [DisplayText(records[i])];
    }
  }

  /** Whether an item is hidden for a search text. */
  predicate Hidden(item: string, search: string) {
    !Contains(Lower(item), Lower(search))
  }

  /** `filter_commands`: the hidden flag of each item. */
  method FilterCommands(items: seq<string>, search: string) returns (hidden: seq<bool>)
    ensures |hidden| == |items|
    ensures forall i :: 0 <= i < |items| ==> (hidden[i] <==> !Contains(Lower(items[i]), Lower(search)))
  {
    var searchText := Lower(search);
    hidden := [];
    for i := 0 to |items|
      invariant |hidden| == i
      invariant forall k :: 0 <= k < i ==> (hidden[k] <==> !Contains(Lower(items[k]), searchText))
    {
      hidden := hidden + [!Contains(Lower(items[i]), searchText)];
    }
  }

  /** An empty search text shows every item. */
  lemma EmptySearchHidesNothing(item: string)
    ensures !Hidden(item, "")
  {
    ContainsEmpty(Lower(item));
  }

  /** Case does not matter: a search text and its lower-case form hide the
      same items. */
  lemma CaseDoesNotMatter(item: string, search: string)
    ensures Hidden(item, search) <==> Hidden(item, Lower(search))
  {
    assert Lower(Lower(search)) == Lower(search);
  }

  /** An item shows for its own display text. */
  lemma ItemShowsForItself(item: string)
    ensures !Hidden(item, item)
  {
    assert StartsWith(Lower(item), Lower(item));
  }

  /** Typing more only hides more: an item hidden for a text stays hidden
      once the text is extended. */
  lemma TypingMoreHidesMore(item: string, search: string, more: string)
    requires Hidden(item, search)
    ensures Hidden(item, search + more)
  {
    assert Lower(search + more) == Lower(search) + Lower(more);
    if Contains(Lower(item), Lower(search) + Lower(more)) {
      ContainsPrefix(Lower(item), Lower(search), Lower(more));
    }
  }

  /** A text that contains `p + q` contains `p`. */
  lemma {:induction false} ContainsPrefix(s: string, p: string, q: string)
    requires Contains(s, p + q)
    ensures Contains(s, p)
    decreases |s|
  {
    if StartsWith(s, p + q) {
      assert s[..|p|] == (p + q)[..|p|] == p;
    } else {
      ContainsPrefix(s[1..], p, q);
    }
  }

  /** The index of the first record shown as `text`, if any. */
  function FirstMatch(records: seq<CommandRecord>, text: string): (r: Option<nat>)
    ensures r.Some? ==> r.value < |records| && DisplayText(records[r.value]) == text
                        && forall j :: 0 <= j < r.value ==> DisplayText(records[j]) != text
    ensures r.None? ==> forall j :: 0 <= j < |records| ==> DisplayText(records[j]) != text
  {
    if records == [] then None
    else if DisplayText(records[0]) == text then Some(0)
    else match FirstMatch(records[1..], text)
      case None => None
      case Some(i) => Some(i + 1)
  }

  /** `on_execute`: the record to run for the current item, if any; the
      loop stops at the first record shown as that item. */
  method OnExecute(records: seq<CommandRecord>, current: Option<string>) returns (run: Option<CommandRecord>)
    ensures current.None? ==> run.None?
    ensures current.Some? ==> run == match FirstMatch(records, current.value)
                                     case None => None
                                     case Some(i) => Some(records[i])
  {
    if current.None? {
      return None;
    }
    var selected := current.value;
    var i := 0;
    while i < |records|
      invariant 0 <= i <= |records|
      invariant forall j :: 0 <= j < i ==> DisplayText(records[j]) != selected
    {
      if DisplayText(records[i]) == selected {
        FirstIs(records, selected, i);
        return Some(records[i]);
      }
      i := i + 1;
    }
    return None;
  }

  /** The first record shown as a text is where the search stops. */
  lemma FirstIs(records: seq<CommandRecord>, text: string, i: int)
    requires 0 <= i < |records| && DisplayText(records[i]) == text
    requires forall j :: 0 <= j < i ==> DisplayText(records[j]) != text
    ensures FirstMatch(records, text) == Some(i)
  {
  }

  /** Every listed item runs a record, and the record it runs is shown as
      that item. */
  lemma ListedItemRuns(records: seq<CommandRecord>, i: int)
    requires 0 <= i < |records|
    ensures FirstMatch(records, DisplayText(records[i])).Some?
    ensures var k := FirstMatch(records, DisplayText(records[i])).value;
            k <= i && DisplayText(records[k]) == DisplayText(records[i])
  {
  }

  /** Two records shown alike: the later one can never be run from the
      dialog, whatever the user selects. */
  lemma ShadowedRecordNeverRuns(records: seq<CommandRecord>, i: int, j: int, text: string)
    requires 0 <= i < j < |records| && DisplayText(records[i]) == DisplayText(records[j])
    ensures FirstMatch(records, text) != Some(j)
  {
  }

  /** "a → b" under "c" and "a" under "b → c" are shown alike. */
  lemma NestedNamesCollide(command: Json)
    ensures DisplayText(CommandRecord("a → b", "c", command, JBool(false), JBool(false), JNull))
            == DisplayText(CommandRecord("a", "b → c", command, JBool(false), JBool(false), JNull))
  {
  }
}
