/** Names of the command backups: `commands_<timestamp>.json` in the backups
    directory, listed newest first by comparing names, and shown with the
    timestamp rewritten as a date and a time. */
module BackupNames {
  import opened Text

  /** Python's `a <= b` on strings: code-point lexicographic order. */
  predicate LexLe(a: string, b: string) {
    a == [] || (b != [] && (a[0] < b[0] || (a[0] == b[0] && LexLe(a[1..], b[1..]))))
  }

  lemma {:induction false} LexLeTotal(a: string, b: string)
    ensures LexLe(a, b) || LexLe(b, a)
  {
    if a != [] && b != [] && a[0] == b[0] {
      LexLeTotal(a[1..], b[1..]);
    }
  }

  lemma {:induction false} LexLeTrans(a: string, b: string, c: string)
    requires LexLe(a, b) && LexLe(b, c)
    ensures LexLe(a, c)
  {
    if a != [] && b != [] && c != [] && a[0] == b[0] && b[0] == c[0] {
      LexLeTrans(a[1..], b[1..], c[1..]);
    }
  }

  lemma {:induction false} LexLeAntisym(a: string, b: string)
    requires LexLe(a, b) && LexLe(b, a)
    ensures a == b
  {
    if a != [] && b != [] {
      LexLeAntisym(a[1..], b[1..]);
      assert a == [a[0]] + a[1..] && b == [b[0]] + b[1..];
    }
  }

  /** A shared prefix does not change the order: names built from the same
      template compare as their timestamps do. */
  lemma {:induction false} LexLePrefix(p: string, a: string, b: string)
    ensures LexLe(p + a, p + b) <==> LexLe(a, b)
  {
    if p != [] {
      assert (p + a)[1..] == p[1..] + a && (p + b)[1..] == p[1..] + b;
      LexLePrefix(p[1..], a, b);
    } else {
      assert p + a == a && p + b == b;
    }
  }

  predicate SortedDesc(s: seq<string>) {
    forall i, j :: 0 <= i < j < |s| ==> LexLe(s[j], s[i])
  }

  function InsertDesc(x: string, s: seq<string>): (r: seq<string>)
    ensures multiset(r) == multiset(s) + multiset{x}
    ensures SortedDesc(s) ==> SortedDesc(r)
  {
    if s == [] then [x]
    else if LexLe(s[0], x) then
      InsertFront(x, s);
      [x] + s
    else
      var rest := InsertDesc(x, s[1..]);
      assert s == [s[0]] + s[1..];
      InsertBehind(x, s, rest);
      [s[0]] + rest
  }

  /** A name no older than the first of a sorted list goes in front. */
  lemma InsertFront(x: string, s: seq<string>)
    requires s != [] && LexLe(s[0], x)
    ensures SortedDesc(s) ==> SortedDesc([x] + s)
  {
    if SortedDesc(s) {
      var r := [x] + s;
      forall i, j | 0 <= i < j < |r|
        ensures LexLe(r[j], r[i])
      {
        if i == 0 {
          if j > 1 {
            LexLeTrans(r[j], s[0], x);
          }
        } else {
          assert r[i] == s[i - 1] && r[j] == s[j - 1];
        }
      }
    }
  }

  /** A name older than the first of a sorted list goes into its tail. */
  lemma InsertBehind(x: string, s: seq<string>, rest: seq<string>)
    requires s != [] && !LexLe(s[0], x)
    requires multiset(rest) == multiset(s[1..]) + multiset{x}
    requires SortedDesc(s) ==> SortedDesc(rest)
    ensures SortedDesc(s) ==> SortedDesc([s[0]] + rest)
  {
    if SortedDesc(s) {
      var r := [s[0]] + rest;
      LexLeTotal(s[0], x);
      forall i, j | 0 <= i < j < |r|
        ensures LexLe(r[j], r[i])
      {
        if i == 0 {
          assert r[j] == rest[j - 1] && r[j] in multiset(rest);
          if r[j] != x {
            var k :| 0 <= k < |s[1..]| && s[1..][k] == r[j];
            assert s[k + 1] == r[j];
          }
        } else {
          assert r[i] == rest[i - 1] && r[j] == rest[j - 1];
        }
      }
    }
  }

  /** `names.sort(reverse=True)`: the same names, newest first. */
  function SortDesc(s: seq<string>): (r: seq<string>)
    ensures multiset(r) == multiset(s)
    ensures SortedDesc(r)
  {
    if s == [] then []
    else
      assert s == [s[0]] + s[1..];
      InsertDesc(s[0], SortDesc(s[1..]))
  }

  predicate IsBackupName(f: string) {
    StartsWith(f, "commands_") && EndsWith(f, ".json")
  }

  /** The directory entries the listing keeps, in directory order. */
  function BackupEntries(names: seq<string>): (r: seq<string>)
    ensures forall i :: 0 <= i < |r| ==> IsBackupName(r[i])
    ensures forall f :: f in r <==> f in names && IsBackupName(f)
  {
    if names == [] then []
    else if IsBackupName(names[0]) then [names[0]] + BackupEntries(names[1..])
    else BackupEntries(names[1..])
  }

  /** The date shown for a backup name: both template parts removed, then
      the fixed slices read as year, month, day, hour, minute, second. */
  function FormatStamp(f: string): string {
    var ts := Replace(Replace(f, "commands_", ""), ".json", "");
    PySlice(ts, 0, 4) + "-" + PySlice(ts, 4, 6) + "-" + PySlice(ts, 6, 8) + " "
    + PySlice(ts, 9, 11) + ":" + PySlice(ts, 11, 13) + ":" + PySlice(ts, 13, 15)
  }

  /** The file name a backup taken at `stamp` gets. */
  function BackupName(stamp: string): string {
    "commands_" + stamp + ".json"
  }

  predicate AllDigits(s: string) {
    forall i :: 0 <= i < |s| ==> IsDigit(s[i])
  }

  /** Taking "commands_" and then ".json" out of a backup name gives its
      stamp back, when the stamp holds neither a 'c' nor a '.'. */
  lemma TemplateRemoved(ts: string)
    requires 'c' !in ts + ".json" && '.' !in ts
    ensures Replace(Replace(BackupName(ts), "commands_", ""), ".json", "") == ts
  {
    calc {
      Replace(BackupName(ts), "commands_", "");
      { assert BackupName(ts) == "commands_" + (ts + ".json"); ReplaceFront(ts + ".json", "commands_", ""); }
      Replace(ts + ".json", "commands_", "");
      { ReplaceSkips(ts + ".json", [], "commands_", ""); assert ts + ".json" + [] == ts + ".json"; }
      ts + ".json";
    }
    calc {
      Replace(ts + ".json", ".json", "");
      { ReplaceSkips(ts, ".json", ".json", ""); }
      ts + Replace(".json", ".json", "");
      { ReplaceFront([], ".json", ""); assert ".json" + [] == ".json"; }
      ts;
    }
  }

  /** The timestamp `datetime.strftime("%Y%m%d_%H%M%S")` produces (eight
      digits, an underscore, six digits) is shown as "YYYY-MM-DD HH:MM:SS". */
  lemma FormatBackupStamp(date: string, time: string)
    requires |date| == 8 && |time| == 6 && AllDigits(date) && AllDigits(time)
    ensures FormatStamp(BackupName(date + "_" + time))
            == date[0..4] + "-" + date[4..6] + "-" + date[6..8] + " "
               + time[0..2] + ":" + time[2..4] + ":" + time[4..6]
  {
    var ts := date + "_" + time;
    assert 'c' !in ts + ".json" && '.' !in ts by {
      assert forall i :: 0 <= i < |ts| ==> ts[i] == '_' || IsDigit(ts[i]);
    }
    TemplateRemoved(ts);
    assert PySlice(ts, 0, 4) == date[0..4];
    assert PySlice(ts, 4, 6) == date[4..6];
    assert PySlice(ts, 6, 8) == date[6..8];
    assert PySlice(ts, 9, 11) == time[0..2];
    assert PySlice(ts, 11, 13) == time[2..4];
    assert PySlice(ts, 13, 15) == time[4..6];
  }
}
