/** The recent-commands rule both history implementations follow: drop every
    old entry with the same "command", keep the first nine survivors, and put
    the new entry in front. Also how each implementation iterates the history
    value it loaded, which may be any JSON document. */
module HistoryRules {
  import opened Wrappers
  import opened JsonDoc

  /** `entry.get("command")`, as Python compares it: a missing key and a
      null value both read as None. */
  function CommandOf(e: Fields): (r: Option<Json>)
    ensures r.None? <==> Get(e, "command").None? || Get(e, "command") == Some(JNull)
    ensures r.Some? ==> Get(e, "command") == r && r.value != JNull
  {
    match Get(e, "command")
    case Some(JNull) => None
    case r => r
  }

  /** The old entries whose command differs from `key`, in their order. */
  function Drop(h: seq<Fields>, key: Option<Json>): (r: seq<Fields>)
    ensures |r| <= |h|
    ensures forall i :: 0 <= i < |r| ==> CommandOf(r[i]) != key
  {
    if h == [] then []
    else if CommandOf(h[0]) != key then [h[0]] + Drop(h[1..], key)
    else Drop(h[1..], key)
  }

  /** Python's `s[:n]`. */
  function Take<T>(s: seq<T>, n: nat): (r: seq<T>)
    ensures |r| == if |s| <= n then |s| else n
    ensures r == s[..|r|]
  {
    if |s| <= n then s else s[..n]
  }

  /** The updated history list. */
  function Prepend(h: seq<Fields>, entry: Fields): seq<Fields> {
    [entry] + Take(Drop(h, CommandOf(entry)), 9)
  }

  /** `a` is `b` with some elements left out and the rest in order. */
  predicate IsSubseq<T(==)>(a: seq<T>, b: seq<T>) {
    if a == [] then true
    else if b == [] then false
    else (a[0] == b[0] && IsSubseq(a[1..], b[1..])) || IsSubseq(a, b[1..])
  }

  /** No two entries share a command. */
  predicate UniqueCommands(h: seq<Fields>) {
    forall i, j :: 0 <= i < j < |h| ==> CommandOf(h[i]) != CommandOf(h[j])
  }

  lemma {:induction false} SubseqPrefix<T>(a: seq<T>, b: seq<T>, n: nat)
    requires IsSubseq(a, b) && n <= |a|
    ensures IsSubseq(a[..n], b)
  {
    if n == 0 {
      assert a[..n] == [];
    } else if a[0] == b[0] && IsSubseq(a[1..], b[1..]) {
      SubseqPrefix(a[1..], b[1..], n - 1);
      assert a[..n][1..] == a[1..][..n - 1];
    } else {
      SubseqPrefix(a, b[1..], n);
    }
  }

  lemma {:induction false} SubseqIn<T>(a: seq<T>, b: seq<T>, x: T)
    requires IsSubseq(a, b) && x in a
    ensures x in b
  {
    if a[0] == b[0] && IsSubseq(a[1..], b[1..]) {
      if x != a[0] {
        SubseqIn(a[1..], b[1..], x);
      }
    } else {
      SubseqIn(a, b[1..], x);
    }
  }

  /** The comprehension keeps old entries in their relative order. */
  lemma {:induction false} DropSubseq(h: seq<Fields>, key: Option<Json>)
    ensures IsSubseq(Drop(h, key), h)
  {
    if h != [] {
      DropSubseq(h[1..], key);
      var r := Drop(h, key);
      if CommandOf(h[0]) != key {
        assert r[0] == h[0] && r[1..] == Drop(h[1..], key);
      } else if r != [] {
        assert r == Drop(h[1..], key);
      }
    }
  }

  /** An old entry survives the comprehension iff its command differs. */
  lemma {:induction false} DropMembers(h: seq<Fields>, key: Option<Json>, e: Fields)
    ensures e in Drop(h, key) <==> e in h && CommandOf(e) != key
  {
    if h != [] {
      DropMembers(h[1..], key, e);
      assert h == [h[0]] + h[1..];
    }
  }

  /** What the updated list holds: the new entry first, at most ten entries,
      no other entry with the new entry's command, and the rest taken from
      the front of the filtered old list, in the old order. */
  lemma PrependShape(h: seq<Fields>, entry: Fields)
    ensures |Prepend(h, entry)| <= 10
    ensures Prepend(h, entry)[0] == entry
    ensures forall i :: 1 <= i < |Prepend(h, entry)| ==> CommandOf(Prepend(h, entry)[i]) != CommandOf(entry)
    ensures IsSubseq(Prepend(h, entry)[1..], h)
    ensures |Prepend(h, entry)| == 1 + if |Drop(h, CommandOf(entry))| <= 9 then |Drop(h, CommandOf(entry))| else 9
  {
    var d := Drop(h, CommandOf(entry));
    var r := Prepend(h, entry);
    assert r[1..] == Take(d, 9);
    DropSubseq(h, CommandOf(entry));
    SubseqPrefix(d, h, |Take(d, 9)|);
  }

  /** Recording an entry whose command is missing or null drops every old
      entry whose command is missing or null as well: each entry kept
      behind it has a non-null command. */
  lemma PrependNullCommand(h: seq<Fields>, entry: Fields)
    requires CommandOf(entry).None?
    ensures forall i :: 1 <= i < |Prepend(h, entry)| ==>
              HasKey(Prepend(h, entry)[i], "command") && Get(Prepend(h, entry)[i], "command") != Some(JNull)
  {
    PrependShape(h, entry);
    forall i | 1 <= i < |Prepend(h, entry)|
      ensures HasKey(Prepend(h, entry)[i], "command") && Get(Prepend(h, entry)[i], "command") != Some(JNull)
    {
      assert CommandOf(Prepend(h, entry)[i]).Some?;
    }
  }

  /** The concrete case: an old entry without a command goes when an entry
      with a null command is recorded. */
  lemma NullCommandDropsMissing()
    ensures Prepend([[]], [("command", JNull)]) == [[("command", JNull)]]
  {
    assert CommandOf([]) == None;
    assert CommandOf([("command", JNull)]) == None;
    assert Drop([[]], None) == [];
  }

  /** An old entry is kept iff its command differs and it is among the first
      nine such entries. */
  lemma PrependKeeps(h: seq<Fields>, entry: Fields, e: Fields)
    requires e in h && CommandOf(e) != CommandOf(entry)
    requires |Drop(h, CommandOf(entry))| <= 9
    ensures e in Prepend(h, entry)
  {
    DropMembers(h, CommandOf(entry), e);
  }

  lemma PrependDropsSame(h: seq<Fields>, entry: Fields, e: Fields)
    requires e in Prepend(h, entry)[1..]
    ensures e in h && CommandOf(e) != CommandOf(entry)
  {
    var d := Drop(h, CommandOf(entry));
    assert Prepend(h, entry)[1..] == Take(d, 9);
    DropMembers(h, CommandOf(entry), e);
  }

  /** Running the same command twice leaves the history as running it once. */
  lemma PrependIdempotent(h: seq<Fields>, entry: Fields)
    ensures Prepend(Prepend(h, entry), entry) == Prepend(h, entry)
  {
    var t := Take(Drop(h, CommandOf(entry)), 9);
    assert Prepend(h, entry) == [entry] + t;
    DropNoMatch(t, CommandOf(entry));
    assert ([entry] + t)[1..] == t;
  }

  lemma {:induction false} DropNoMatch(h: seq<Fields>, key: Option<Json>)
    requires forall i :: 0 <= i < |h| ==> CommandOf(h[i]) != key
    ensures Drop(h, key) == h
  {
    if h != [] {
      DropNoMatch(h[1..], key);
    }
  }

  lemma {:induction false} SubseqUnique(a: seq<Fields>, b: seq<Fields>)
    requires IsSubseq(a, b) && UniqueCommands(b)
    ensures UniqueCommands(a)
  {
    if a != [] {
      if a[0] == b[0] && IsSubseq(a[1..], b[1..]) {
        SubseqUnique(a[1..], b[1..]);
        forall j | 0 < j < |a|
          ensures CommandOf(a[0]) != CommandOf(a[j])
        {
          SubseqIn(a[1..], b[1..], a[j]);
          var m :| 0 <= m < |b[1..]| && b[1..][m] == a[j];
          assert b[m + 1] == a[j];
        }
      } else {
        SubseqUnique(a, b[1..]);
      }
    }
  }

  /** A history without repeated commands stays so after an add. */
  lemma PrependUnique(h: seq<Fields>, entry: Fields)
    requires UniqueCommands(h)
    ensures UniqueCommands(Prepend(h, entry))
  {
    PrependShape(h, entry);
    var r := Prepend(h, entry);
    SubseqUnique(r[1..], h);
    forall i, j | 0 <= i < j < |r|
      ensures CommandOf(r[i]) != CommandOf(r[j])
    {
      if i > 0 {
        assert r[i] == r[1..][i - 1] && r[j] == r[1..][j - 1];
      }
    }
  }

  // ---------------------------------------------------------------------
  // Iterating a loaded history value.

  function AsObjects(xs: seq<Json>): (r: Option<seq<Fields>>)
    ensures r.Some? <==> forall i :: 0 <= i < |xs| ==> xs[i].JObj?
    ensures r.Some? ==> |r.value| == |xs| && forall i :: 0 <= i < |xs| ==> r.value[i] == xs[i].fields
  {
    if xs == [] then Some([])
    else if !xs[0].JObj? then None
    else match AsObjects(xs[1..])
      case None => None
      case Some(rest) => Some([xs[0].fields] + rest)
  }

  function ToJson(h: seq<Fields>): (r: Json)
    ensures r.JArr? && |r.items| == |h|
    ensures forall i :: 0 <= i < |h| ==> r.items[i] == JObj(h[i])
  {
    JArr(seq(|h|, i requires 0 <= i < |h| => JObj(h[i])))
  }

  /** The entries `for cmd in history: cmd.get(...)` visits, or None when the
      loop raises: a list of mappings is visited entry by entry; an empty
      mapping or an empty string visits nothing; any other value raises
      (iterating a number, or calling `.get` on a string, a list or a key). */
  function ConfigItems(h: Json): (r: Option<seq<Fields>>)
    ensures h.JArr? && r.Some? ==> ToJson(r.value) == h
  {
    match h
    case JArr(xs) =>
      var r := AsObjects(xs);
      if r.Some? then assert ToJson(r.value).items == xs; r else r
    case JObj(fs) => if fs == [] then Some([]) else None
    case JStr(s) => if s == "" then Some([]) else None
    case _ => None
  }

  /** The same for `cmd['command']`: every visited mapping must hold the key,
      or the lookup raises `KeyError`. */
  function KeyedItems(h: Json): (r: Option<seq<Fields>>)
    ensures r.Some? ==> forall i :: 0 <= i < |r.value| ==> HasKey(r.value[i], "command")
    ensures r.Some? ==> ConfigItems(h) == r
  {
    match ConfigItems(h)
    case None => None
    case Some(items) =>
      if forall i :: 0 <= i < |items| ==> HasKey(items[i], "command") then Some(items) else None
  }

  /** Listing the history written by an add visits exactly the list returned. */
  lemma ItemsToJson(h: seq<Fields>)
    ensures ConfigItems(ToJson(h)) == Some(h)
  {
    var xs := ToJson(h).items;
    assert forall i :: 0 <= i < |xs| ==> xs[i] == JObj(h[i]);
    var r := AsObjects(xs);
    assert r.value == h;
  }
}
