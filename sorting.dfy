/** Python's list ordering built-ins as the arpeggiator uses them:
    `sorted(xs)` / `xs.sort()` (ascending), `xs.sort(reverse=True)`
    (descending) and `random.shuffle(xs)` (some permutation). The sorts are
    given by their result, a sorted permutation, which is unique. */
module Sorting {

  ghost predicate SortedUp(s: seq<int>)
  {
    forall i, j :: 0 <= i < j < |s| ==> s[i] <= s[j]
  }

  ghost predicate SortedDown(s: seq<int>)
  {
    forall i, j :: 0 <= i < j < |s| ==> s[i] >= s[j]
  }

  /** Every element of s is at least x. */
  ghost predicate Above(x: int, s: seq<int>)
  {
    forall i :: 0 <= i < |s| ==> x <= s[i]
  }

  lemma ConsSorted(x: int, s: seq<int>)
    requires SortedUp(s) && Above(x, s)
    ensures SortedUp([x] + s)
  {
    var r := [x] + s;
    forall i, j | 0 <= i < j < |r|
      ensures r[i] <= r[j]
    {
      assert r[j] == s[j - 1];
      if i > 0 {
        assert r[i] == s[i - 1];
      }
    }
  }

  /** Places x into an ascending sequence. */
  function Insert(x: int, s: seq<int>): (r: seq<int>)
    requires SortedUp(s)
    ensures SortedUp(r)
    ensures multiset(r) == multiset(s) + multiset{x}
  {
    if s == [] || x <= s[0] then
      ConsSorted(x, s);
      [x] + s
    else
      var tail := Insert(x, s[1..]);
      assert s == [s[0]] + s[1..];
      assert Above(s[0], tail) by {
        forall i | 0 <= i < |tail|
          ensures s[0] <= tail[i]
        {
          assert tail[i] in multiset(tail);
        }
      }
      ConsSorted(s[0], tail);
      [s[0]] + tail
  }

  /** The ascending rearrangement of s (what `sorted` returns). */
  function SortUp(s: seq<int>): (r: seq<int>)
    ensures SortedUp(r)
    ensures multiset(r) == multiset(s)
  {
    if s == [] then []
    else
      assert s == [s[0]] + s[1..];
      Insert(s[0], SortUp(s[1..]))
  }

  function Reverse(s: seq<int>): (r: seq<int>)
    ensures |r| == |s|
    ensures forall i :: 0 <= i < |s| ==> r[i] == s[|s| - 1 - i]
  {
    if s == [] then [] else Reverse(s[1..]) + [s[0]]
  }

  lemma {:induction false} ReversePermutes(s: seq<int>)
    ensures multiset(Reverse(s)) == multiset(s)
  {
    if s != [] {
      ReversePermutes(s[1..]);
      assert s == [s[0]] + s[1..];
    }
  }

  /** The descending rearrangement of s (what `sort(reverse=True)` leaves). */
  function SortDown(s: seq<int>): (r: seq<int>)
    ensures SortedDown(r)
    ensures multiset(r) == multiset(s)
  {
    ReversePermutes(SortUp(s));
    Reverse(SortUp(s))
  }

  /** `a[..] := s`, element by element. */
  method Overwrite(a: array<int>, s: seq<int>)
    requires |s| == a.Length
    modifies a
    ensures a[..] == s
  {
    forall i | 0 <= i < a.Length {
      a[i] := s[i];
    }
  }

  /** `random.shuffle(a)`: CPython swaps a[i] with a[j], j drawn from 0..i,
      for i from the end down to 1. The random draws are a parameter (a
      missing or out-of-range draw is reduced into range), and only the
      permutation is promised. */
  method Shuffle(a: array<int>, draws: seq<nat>)
    modifies a
    ensures multiset(a[..]) == multiset(old(a[..]))
  {
    var i := a.Length - 1;
    while i > 0
      invariant i < a.Length
      invariant multiset(a[..]) == multiset(old(a[..]))
    {
      var j := (if i < |draws| then draws[i] else 0) % (i + 1);
      a[i], a[j] := a[j], a[i];
      i := i - 1;
    }
  }
}
