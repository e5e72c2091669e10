/** TCP ports, the sorted duplicate-free port lists the daemon works over, and its mutable port set. */
module Ports {
  type Port = p: int | 0 <= p < 0x1_0000

  /** The elements of a list, as a set. */
  function Elements<T>(s: seq<T>): set<T> {
    set x | x in s
  }

  ghost predicate StrictlyIncreasing(s: seq<int>) {
    forall i, j :: 0 <= i < j < |s| ==> s[i] < s[j]
  }

  ghost predicate Distinct<T>(s: seq<T>) {
    forall i, j :: 0 <= i < j < |s| ==> s[i] != s[j]
  }

  /** A list increases when its first element lies below all others and they increase. */
  lemma IncreasingFrom(x: Port, t: seq<Port>)
    ensures StrictlyIncreasing([x] + t) <==> StrictlyIncreasing(t) && forall y :: y in t ==> x < y
  {
    var s := [x] + t;
    if StrictlyIncreasing(s) {
      forall i, j | 0 <= i < j < |t| ensures t[i] < t[j] {
        assert s[i + 1] < s[j + 1];
      }
      forall y | y in t ensures x < y {
        var k :| 0 <= k < |t| && t[k] == y;
        assert s[0] < s[k + 1];
      }
    }
    if StrictlyIncreasing(t) && forall y :: y in t ==> x < y {
      forall i, j | 0 <= i < j < |s| ensures s[i] < s[j] {
        assert s[j] == t[j - 1] && t[j - 1] in t;
        assert i > 0 ==> s[i] == t[i - 1];
      }
    }
  }

  function InsertSorted(p: Port, s: seq<Port>): (r: seq<Port>)
    ensures forall x :: x in r <==> x in s || x == p
    ensures StrictlyIncreasing(s) ==> StrictlyIncreasing(r)
  {
    if s == [] then [p]
    else
      assert s == [s[0]] + s[1..];
      IncreasingFrom(s[0], s[1..]);
      if p < s[0] then
        assert forall y :: y in s ==> y == s[0] || y in s[1..];
        IncreasingFrom(p, s);
        [p] + s
      else if p == s[0] then s
      else
        var t := InsertSorted(p, s[1..]);
        IncreasingFrom(s[0], t);
        [s[0]] + t
  }

  /** `sort_unstable` followed by `dedup`: the same ports, in strictly increasing order. */
  function SortedUnique(s: seq<Port>): (r: seq<Port>)
    ensures StrictlyIncreasing(r)
    ensures forall x :: x in r <==> x in s
  {
    if s == [] then [] else InsertSorted(s[0], SortedUnique(s[1..]))
  }

  /** A list in which no element has multiplicity two has pairwise distinct positions. */
  lemma SingleMultiplicityIsDistinct<T>(s: seq<T>)
    requires forall x :: multiset(s)[x] <= 1
    ensures Distinct(s)
  {
    forall i, j | 0 <= i < j < |s|
      ensures s[i] != s[j]
    {
      assert s == s[..j] + s[j..];
      assert multiset(s)[s[i]] == multiset(s[..j])[s[i]] + multiset(s[j..])[s[i]];
      assert s[..j][i] == s[i] && s[j..][0] == s[j];
      assert s[i] in multiset(s[..j]) && s[j] in multiset(s[j..]);
    }
  }

  lemma DistinctIsSingleMultiplicity<T>(s: seq<T>)
    requires Distinct(s)
    ensures forall x :: multiset(s)[x] <= 1
  {
    if s != [] {
      var n := |s| - 1;
      assert s == s[..n] + [s[n]];
      DistinctIsSingleMultiplicity(s[..n]);
      assert s[n] !in s[..n];
    }
  }

  /** A `BTreeSet<u16>` passed by mutable reference. */
  class PortSet {
    var ports: set<Port>

    constructor (ports: set<Port>)
      ensures this.ports == ports
    {
      this.ports := ports;
    }

    /** Adds a port and says whether it was absent. */
    method Insert(p: Port) returns (added: bool)
      modifies this
      ensures added == (p !in old(ports))
      ensures ports == old(ports) + {p}
    {
      added := p !in ports;
      ports := ports + {p};
    }
  }
}
