/** JSON documents as the launcher holds them after `json.load`: objects keep
    their keys in insertion order (Python's `dict` order drives menu order),
    and the small set of `dict` operations the launcher performs on them. */
module JsonDoc {
  import opened Wrappers

  /** Numbers are integers: the launcher never reads or writes a fraction. */
  datatype Json =
    | JNull
    | JBool(b: bool)
    | JNum(n: int)
    | JStr(s: string)
    | JArr(items: seq<Json>)
    | JObj(fields: seq<(string, Json)>)

  type Fields = seq<(string, Json)>

  /** The keys of an object, in insertion order. */
  function Keys(fs: Fields): (ks: seq<string>)
    ensures |ks| == |fs|
    ensures forall i :: 0 <= i < |fs| ==> ks[i] == fs[i].0
  {
    if fs == [] then [] else [fs[0].0] + Keys(fs[1..])
  }

  /** Python's `k in d`. */
  predicate HasKey(fs: Fields, k: string) {
    k in Keys(fs)
  }

  /** A `dict` never holds a key twice; every object `json.load` builds has
      this shape. */
  predicate DistinctKeys(fs: Fields) {
    forall i, j :: 0 <= i < j < |fs| ==> fs[i].0 != fs[j].0
  }

  /** Python's `d.get(k)`: the value stored under `k`, if any. */
  function Get(fs: Fields, k: string): (r: Option<Json>)
    ensures r.Some? <==> HasKey(fs, k)
    ensures r.Some? ==> exists i :: 0 <= i < |fs| && fs[i] == (k, r.value)
  {
    if fs == [] then None
    else if fs[0].0 == k then Some(fs[0].1)
    else Get(fs[1..], k)
  }

  /** Python's `d[k] = v`: an existing key keeps its place and takes the new
      value; a new key goes last. */
  function Put(fs: Fields, k: string, v: Json): (r: Fields)
    ensures HasKey(fs, k) ==> |r| == |fs|
    ensures !HasKey(fs, k) ==> r == fs + [(k, v)]
  {
    if fs == [] then [(k, v)]
    else if fs[0].0 == k then [(k, v)] + fs[1..]
    else [fs[0]] + Put(fs[1..], k, v)
  }

  /** Python's `del d[k]` (for a key that is present) and its no-op when the
      key is absent: every pair under `k` is dropped, the rest keep order. */
  function Delete(fs: Fields, k: string): (r: Fields)
    ensures !HasKey(r, k)
    ensures |r| <= |fs|
  {
    if fs == [] then []
    else if fs[0].0 == k then Delete(fs[1..], k)
    else [fs[0]] + Delete(fs[1..], k)
  }

  /** Python truthiness of a JSON value. */
  predicate Truthy(j: Json) {
    match j
    case JNull => false
    case JBool(b) => b
    case JNum(n) => n != 0
    case JStr(s) => s != ""
    case JArr(xs) => xs != []
    case JObj(fs) => fs != []
  }

  /** A mapping that holds the key "command": the shape of a command entry. */
  predicate IsCommandNode(j: Json) {
    j.JObj? && HasKey(j.fields, "command")
  }

  /** A mapping without "command": the shape of a group or sub-group. */
  predicate IsGroupNode(j: Json) {
    j.JObj? && !HasKey(j.fields, "command")
  }

  /** Python's `d.get(k, default)` on a value already known to be a `dict`. */
  function GetOr(fs: Fields, k: string, default: Json): Json {
    Get(fs, k).GetOr(default)
  }

  /** Distinct keys at every depth. */
  predicate WellFormed(j: Json) {
    match j
    case JObj(fs) => DistinctKeys(fs) && forall i :: 0 <= i < |fs| ==> WellFormed(fs[i].1)
    case JArr(xs) => forall i :: 0 <= i < |xs| ==> WellFormed(xs[i])
    case _ => true
  }

  // ---------------------------------------------------------------------
  // Partner lemmas: reading back what Put and Delete wrote.

  lemma {:induction false} GetPut(fs: Fields, k: string, v: Json, k2: string)
    ensures Get(Put(fs, k, v), k2) == if k2 == k then Some(v) else Get(fs, k2)
  {
    if fs != [] && fs[0].0 != k {
      GetPut(fs[1..], k, v, k2);
    }
  }

  lemma {:induction false} KeysPut(fs: Fields, k: string, v: Json)
    ensures Keys(Put(fs, k, v)) == if HasKey(fs, k) then Keys(fs) else Keys(fs) + [k]
  {
    if fs != [] && fs[0].0 != k {
      KeysPut(fs[1..], k, v);
    }
  }

  lemma {:induction false} PutDistinct(fs: Fields, k: string, v: Json)
    requires DistinctKeys(fs)
    ensures DistinctKeys(Put(fs, k, v))
  {
    KeysPut(fs, k, v);
    var r := Put(fs, k, v);
    forall i, j | 0 <= i < j < |r|
      ensures r[i].0 != r[j].0
    {
      assert Keys(r)[i] == r[i].0 && Keys(r)[j] == r[j].0;
    }
  }

  /** Under distinct keys, Put changes the pair under `k` and nothing else. */
  lemma {:induction false} PutInPlace(fs: Fields, k: string, v: Json, i: int)
    requires 0 <= i < |fs| && fs[i].0 != k
    ensures i < |Put(fs, k, v)| && Put(fs, k, v)[i] == fs[i]
  {
    if i > 0 && fs[0].0 != k {
      PutInPlace(fs[1..], k, v, i - 1);
    }
  }

  lemma {:induction false} GetDelete(fs: Fields, k: string, k2: string)
    ensures Get(Delete(fs, k), k2) == if k2 == k then None else Get(fs, k2)
  {
    if fs != [] {
      GetDelete(fs[1..], k, k2);
    }
  }

  lemma {:induction false} DeleteAbsent(fs: Fields, k: string)
    requires !HasKey(fs, k)
    ensures Delete(fs, k) == fs
  {
    if fs != [] {
      assert Keys(fs)[0] == fs[0].0;
      assert Keys(fs[1..]) == Keys(fs)[1..];
      DeleteAbsent(fs[1..], k);
    }
  }

  /** Deleting a present key of a `dict` removes exactly one pair. */
  lemma {:induction false} DeleteOne(fs: Fields, k: string)
    requires DistinctKeys(fs) && HasKey(fs, k)
    ensures |Delete(fs, k)| == |fs| - 1
    ensures DistinctKeys(Delete(fs, k))
    ensures forall k2 :: k2 != k ==> (HasKey(Delete(fs, k), k2) <==> HasKey(fs, k2))
  {
    forall k2 | k2 != k
      ensures HasKey(Delete(fs, k), k2) <==> HasKey(fs, k2)
    {
      GetDelete(fs, k, k2);
    }
    if fs[0].0 == k {
      assert !HasKey(fs[1..], k) by {
        forall i | 0 <= i < |fs| - 1
          ensures fs[1..][i].0 != k
        {
          assert fs[i + 1].0 != fs[0].0;
        }
      }
      DeleteAbsent(fs[1..], k);
    } else {
      assert Keys(fs) == [fs[0].0] + Keys(fs[1..]);
      DeleteOne(fs[1..], k);
      var r := Delete(fs, k);
      assert r == [fs[0]] + Delete(fs[1..], k);
      forall i, j | 0 <= i < j < |r|
        ensures r[i].0 != r[j].0
      {
        if i == 0 {
          assert HasKey(Delete(fs[1..], k), r[j].0) by {
            assert Keys(Delete(fs[1..], k))[j - 1] == r[j].0;
          }
          GetDelete(fs[1..], k, r[j].0);
          assert HasKey(fs[1..], r[j].0);
          var m :| 0 <= m < |fs[1..]| && Keys(fs[1..])[m] == r[j].0;
          assert fs[m + 1].0 == r[j].0;
        }
      }
    }
  }

  /** Every pair Delete keeps was in the object. */
  lemma {:induction false} DeleteKeeps(fs: Fields, k: string, i: int)
    requires 0 <= i < |Delete(fs, k)|
    ensures Delete(fs, k)[i] in fs
  {
    if fs[0].0 == k {
      DeleteKeeps(fs[1..], k, i);
    } else if i > 0 {
      DeleteKeeps(fs[1..], k, i - 1);
    }
  }

  /** The number of distinct keys: Python's `len(d)`. */
  function KeyCount(fs: Fields): (n: nat)
    ensures n <= |fs|
  {
    if fs == [] then 0
    else (if HasKey(fs[1..], fs[0].0) then 0 else 1) + KeyCount(fs[1..])
  }

  lemma {:induction false} KeyCountDistinct(fs: Fields)
    requires DistinctKeys(fs)
    ensures KeyCount(fs) == |fs|
  {
    if fs != [] {
      assert !HasKey(fs[1..], fs[0].0) by {
        forall i | 0 <= i < |fs| - 1
          ensures Keys(fs[1..])[i] != fs[0].0
        {
          assert fs[i + 1].0 != fs[0].0;
        }
      }
      KeyCountDistinct(fs[1..]);
    }
  }

  /** An object with two distinct keys has one besides any given key. */
  lemma {:induction false} KeyCountOther(fs: Fields, k: string)
    requires KeyCount(fs) >= 2
    ensures exists i :: 0 <= i < |fs| && fs[i].0 != k
  {
    if fs[0].0 == k {
      if HasKey(fs[1..], fs[0].0) {
        KeyCountOther(fs[1..], k);
        var i :| 0 <= i < |fs[1..]| && fs[1..][i].0 != k;
        assert fs[i + 1].0 != k;
      } else {
        assert KeyCount(fs[1..]) >= 1;
        assert fs[1].0 != k by {
          assert Keys(fs[1..])[0] == fs[1].0;
        }
      }
    }
  }
}
