/** JSON values, the order of object keys, and the two ways the printers sort an object. */
module JsonValue {
  /** A float is known by its printed text, which is never an integer's text. */
  datatype Number = Integer(value: int) | Float(lexeme: string)

  datatype Json =
    | Null
    | Bool(flag: bool)
    | Num(number: Number)
    | Str(text: string)
    | Arr(items: seq<Json>)
    | Obj(entries: seq<Entry>)

  /** `entries` lists an object's map in whatever order it iterates. */
  datatype Entry = Entry(key: string, value: Json)

  // ---------------------------------------------------------------- key order

  /** Strict lexicographic order by character. */
  predicate KeyLess(a: string, b: string) {
    b != [] && (a == [] || a[0] < b[0] || (a[0] == b[0] && KeyLess(a[1..], b[1..])))
  }

  lemma {:induction false} KeyLessTransitive(a: string, b: string, c: string)
    requires KeyLess(a, b) && KeyLess(b, c)
    ensures KeyLess(a, c)
  {
    if a != [] && a[0] == b[0] == c[0] {
      KeyLessTransitive(a[1..], b[1..], c[1..]);
    }
  }

  lemma {:induction false} KeyLessTotal(a: string, b: string)
    ensures KeyLess(a, b) || a == b || KeyLess(b, a)
    ensures !(KeyLess(a, b) && KeyLess(b, a)) && !KeyLess(a, a)
  {
    if a != [] && b != [] {
      KeyLessTotal(a[1..], b[1..]);
      assert a == [a[0]] + a[1..] && b == [b[0]] + b[1..];
    }
    if a != [] {
      KeyLessTotal(a[1..], a[1..]);
    }
  }

  /** The texts agree up to `k`, and there the first has the smaller character. */
  ghost predicate SmallerAt(a: string, b: string, k: nat) {
    k < |a| && k < |b| && a[..k] == b[..k] && a[k] < b[k]
  }

  /** A text comes before another exactly when it is a proper prefix of it, or has the smaller character at
      the first place where they differ. */
  lemma {:induction false} KeyLessExactly(a: string, b: string)
    ensures KeyLess(a, b) <==> a < b || exists k: nat :: SmallerAt(a, b, k)
    decreases |a|
  {
    if a == [] || b == [] {
    } else if a[0] == b[0] {
      var s, t := a[1..], b[1..];
      KeyLessExactly(s, t);
      assert a == [a[0]] + s && b == [a[0]] + t;
      assert a < b <==> s < t;
      forall k: nat ensures SmallerAt(a, b, k) ==> k > 0 && SmallerAt(s, t, k - 1) {
        if SmallerAt(a, b, k) && k > 0 {
          assert s[..k - 1] == a[..k][1..] && t[..k - 1] == b[..k][1..];
        }
      }
      forall k: nat ensures SmallerAt(s, t, k) ==> SmallerAt(a, b, k + 1) {
        if SmallerAt(s, t, k) {
          assert a[..k + 1] == [a[0]] + s[..k] && b[..k + 1] == [a[0]] + t[..k];
        }
      }
    } else {
      assert a[0] < b[0] ==> SmallerAt(a, b, 0);
      forall k: nat ensures SmallerAt(a, b, k) ==> k == 0 {
        if SmallerAt(a, b, k) && k > 0 {
          SameFirst(a, b, k);
        }
      }
    }
  }

  lemma SameFirst(a: string, b: string, k: nat)
    requires SmallerAt(a, b, k) && k > 0
    ensures a[0] == b[0]
  {
    assert a[0] == a[..k][0] && b[0] == b[..k][0];
  }

  /** Strictly increasing keys. */
  ghost predicate KeysIncrease(s: seq<Entry>) {
    forall i, j :: 0 <= i < j < |s| ==> KeyLess(s[i].key, s[j].key)
  }

  ghost predicate DistinctKeys(s: seq<Entry>) {
    forall i, j :: 0 <= i < j < |s| ==> s[i].key != s[j].key
  }

  ghost predicate HasKey(s: seq<Entry>, key: string) {
    exists i :: 0 <= i < |s| && s[i].key == key
  }

  lemma TailHasKey(s: seq<Entry>, key: string)
    requires KeysIncrease(s) && s != []
    ensures HasKey(s[1..], key) <==> HasKey(s, key) && key != s[0].key
  {
    KeyLessTotal(s[0].key, s[0].key);
    if HasKey(s[1..], key) {
      var i :| 0 <= i < |s[1..]| && s[1..][i].key == key;
      assert s[i + 1].key == key && KeyLess(s[0].key, s[i + 1].key);
    }
    if HasKey(s, key) && key != s[0].key {
      var i :| 0 <= i < |s| && s[i].key == key;
      assert s[1..][i - 1].key == key;
    }
  }

  lemma HeadKeysAgree(s: seq<Entry>, t: seq<Entry>)
    requires KeysIncrease(s) && KeysIncrease(t) && s != [] && t != []
    requires HasKey(s, t[0].key) && HasKey(t, s[0].key)
    ensures s[0].key == t[0].key
  {
    var i :| 0 <= i < |t| && t[i].key == s[0].key;
    var j :| 0 <= j < |s| && s[j].key == t[0].key;
    KeyLessTotal(s[0].key, t[0].key);
  }

  /** Two strictly sorted lists with the same keys carry them at the same positions. */
  lemma {:induction false} SortedKeysAgree(s: seq<Entry>, t: seq<Entry>)
    requires KeysIncrease(s) && KeysIncrease(t) && forall k :: HasKey(s, k) <==> HasKey(t, k)
    ensures |s| == |t| && forall i :: 0 <= i < |s| ==> s[i].key == t[i].key
  {
    assert s != [] ==> HasKey(s, s[0].key);
    assert t != [] ==> HasKey(t, t[0].key);
    if s != [] && t != [] {
      HeadKeysAgree(s, t);
      forall k
        ensures HasKey(s[1..], k) <==> HasKey(t[1..], k)
      {
        TailHasKey(s, k);
        TailHasKey(t, k);
      }
      SortedKeysAgree(s[1..], t[1..]);
      forall i | 0 <= i < |s|
        ensures s[i].key == t[i].key
      {
        if i > 0 {
          assert s[1..][i - 1].key == t[1..][i - 1].key;
        }
      }
    }
  }

  /** Two strictly sorted lists with the same entries are the same list. */
  lemma SortedUnique(s: seq<Entry>, t: seq<Entry>)
    requires KeysIncrease(s) && KeysIncrease(t) && forall e :: e in s <==> e in t
    ensures s == t
  {
    forall k
      ensures HasKey(s, k) <==> HasKey(t, k)
    {
      SameKeys(s, t, k);
      SameKeys(t, s, k);
    }
    SortedKeysAgree(s, t);
    forall i | 0 <= i < |s|
      ensures s[i] == t[i]
    {
      assert s[i] in t;
      var j :| 0 <= j < |t| && t[j] == s[i];
      KeyLessTotal(t[i].key, t[j].key);
    }
  }

  lemma SameKeys(s: seq<Entry>, t: seq<Entry>, key: string)
    requires forall e :: e in s ==> e in t
    ensures HasKey(s, key) ==> HasKey(t, key)
  {
    if HasKey(s, key) {
      var i :| 0 <= i < |s| && s[i].key == key;
      assert s[i] in t;
    }
  }

  // ---------------------------------------------------------------- stable sort

  /** Inserts after every entry whose key is not greater. */
  function InsertStable(e: Entry, s: seq<Entry>): (r: seq<Entry>)
    ensures forall x :: x in r <==> x in s || x == e
    ensures |r| == |s| + 1
  {
    if s == [] then [e]
    else
      var n := |s| - 1;
      if !KeyLess(e.key, s[n].key) then s + [e]
      else
        assert s == s[..n] + [s[n]];
        InsertStable(e, s[..n]) + [s[n]]
  }

  /** What `sort_by` on keys returns. */
  function StableSort(s: seq<Entry>): (r: seq<Entry>)
    ensures forall x :: x in r <==> x in s
    ensures |r| == |s|
  {
    if s == [] then []
    else
      var n := |s| - 1;
      assert s == s[..n] + [s[n]];
      InsertStable(s[n], StableSort(s[..n]))
  }

  lemma {:induction false} InsertStableIncreases(e: Entry, s: seq<Entry>)
    requires KeysIncrease(s) && forall x :: x in s ==> x.key != e.key
    ensures KeysIncrease(InsertStable(e, s))
  {
    if s != [] {
      var n := |s| - 1;
      KeyLessTotal(e.key, s[n].key);
      assert s[n] in s;
      if KeyLess(e.key, s[n].key) {
        InsertStableIncreases(e, s[..n]);
        var t := InsertStable(e, s[..n]);
        forall i | 0 <= i < |t|
          ensures KeyLess(t[i].key, s[n].key)
        {
          assert t[i] in t;
        }
      } else {
        forall i | 0 <= i < n
          ensures KeyLess(s[i].key, e.key)
        {
          KeyLessTransitive(s[i].key, s[n].key, e.key);
        }
      }
    }
  }

  lemma {:induction false} StableSortIncreases(s: seq<Entry>)
    requires DistinctKeys(s)
    ensures KeysIncrease(StableSort(s))
  {
    if s != [] {
      var n := |s| - 1;
      StableSortIncreases(s[..n]);
      forall x | x in StableSort(s[..n])
        ensures x.key != s[n].key
      {
        assert x in s[..n];
      }
      InsertStableIncreases(s[n], StableSort(s[..n]));
    }
  }

  // ---------------------------------------------------------------- collecting into an ordered map

  /** `BTreeMap::insert`: replaces the value of an equal key. */
  function MapInsert(s: seq<Entry>, e: Entry): seq<Entry> {
    if s == [] then [e]
    else if KeyLess(e.key, s[0].key) then [e] + s
    else if e.key == s[0].key then [e] + s[1..]
    else [s[0]] + MapInsert(s[1..], e)
  }

  lemma {:induction false} MapInsertIncreases(s: seq<Entry>, e: Entry)
    requires KeysIncrease(s) && forall x :: x in s ==> x.key != e.key
    ensures KeysIncrease(MapInsert(s, e))
    ensures forall x :: x in MapInsert(s, e) <==> x in s || x == e
  {
    if s != [] {
      assert s == [s[0]] + s[1..];
      KeyLessTotal(e.key, s[0].key);
      if KeyLess(e.key, s[0].key) {
        forall i | 0 < i < |s|
          ensures KeyLess(e.key, s[i].key)
        {
          KeyLessTransitive(e.key, s[0].key, s[i].key);
        }
      } else {
        MapInsertIncreases(s[1..], e);
        var t := MapInsert(s[1..], e);
        forall i | 0 <= i < |t|
          ensures KeyLess(s[0].key, t[i].key)
        {
          assert t[i] in t;
        }
      }
    }
  }

  /** The gateway's way of sorting: collect the entries into an ordered map. */
  method CollectSorted(entries: seq<Entry>) returns (sorted: seq<Entry>)
    requires DistinctKeys(entries)
    ensures sorted == StableSort(entries)
  {
    sorted := [];
    for i := 0 to |entries|
      invariant KeysIncrease(sorted)
      invariant forall x :: x in sorted <==> x in entries[..i]
    {
      assert entries[..i + 1] == entries[..i] + [entries[i]];
      MapInsertIncreases(sorted, entries[i]);
      sorted := MapInsert(sorted, entries[i]);
    }
    assert entries[..|entries|] == entries;
    StableSortIncreases(entries);
    SortedUnique(sorted, StableSort(entries));
  }

  // ---------------------------------------------------------------- sorting in place

  lemma {:induction false} InsertStableAt(e: Entry, s: seq<Entry>, j: nat)
    requires j <= |s|
    requires forall k :: j <= k < |s| ==> KeyLess(e.key, s[k].key)
    requires j > 0 ==> !KeyLess(e.key, s[j - 1].key)
    ensures InsertStable(e, s) == s[..j] + [e] + s[j..]
  {
    if j < |s| {
      var n := |s| - 1;
      InsertStableAt(e, s[..n], j);
      assert s[..n][..j] == s[..j] && s[..n][j..] + [s[n]] == s[j..];
    }
  }

  /** Moves the entry at `i` down into the sorted part before it. */
  method SinkEntry(a: array<Entry>, i: nat)
    requires i < a.Length
    modifies a
    ensures a[..i + 1] == InsertStable(old(a[i]), old(a[..i]))
    ensures a[i + 1..] == old(a[i + 1..])
  {
    ghost var s := a[..i];
    var e := a[i];
    var j := i;
    while j > 0 && KeyLess(e.key, a[j - 1].key)
      invariant j <= i
      invariant a[..j] == s[..j]
      invariant forall k :: j <= k < i ==> a[k + 1] == s[k] && KeyLess(e.key, s[k].key)
      invariant a[i + 1..] == old(a[i + 1..])
    {
      assert a[j - 1] == a[..j][j - 1];
      a[j] := a[j - 1];
      j := j - 1;
    }
    a[j] := e;
    assert j > 0 ==> a[j - 1] == a[..j][j - 1];
    InsertStableAt(e, s, j);
    assert a[..i + 1] == s[..j] + [e] + s[j..];
  }

  /** The card signer's way of sorting: in place, by key. */
  method SortInPlace(a: array<Entry>)
    modifies a
    ensures a[..] == StableSort(old(a[..]))
  {
    ghost var was := a[..];
    for i := 0 to a.Length
      invariant a[..i] == StableSort(was[..i])
      invariant a[i..] == was[i..]
    {
      assert was[..i + 1][..i] == was[..i];
      assert a[i] == a[i..][0] && a[i + 1..] == a[i..][1..];
      SinkEntry(a, i);
    }
    assert was[..a.Length] == was && a[..a.Length] == a[..];
  }
}
