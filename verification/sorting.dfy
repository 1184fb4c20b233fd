/** Python's `sorted` on a list of numbers. Any ascending permutation of a
    list is the same list (`SortedUnique`), so the algorithm used here
    (insertion sort) yields exactly what Timsort yields. */
module Sorting {

  ghost predicate SortedAsc(s: seq<int>) {
    forall i, j :: 0 <= i < j < |s| ==> s[i] <= s[j]
  }

  function Insert(x: int, s: seq<int>): (r: seq<int>)
    requires SortedAsc(s)
    ensures |r| == |s| + 1
    ensures r[0] == x || (|s| > 0 && r[0] == s[0])
    ensures SortedAsc(r)
    ensures multiset(r) == multiset(s) + multiset{x}
  {
    if |s| == 0 || x <= s[0] then
      [x] + s
    else
      var t := Insert(x, s[1..]);
      InsertStep(x, s, t);
      [s[0]] + t
  }

  /** Putting the head back in front of the insertion into the tail. */
  lemma InsertStep(x: int, s: seq<int>, t: seq<int>)
    requires |s| > 0 && SortedAsc(s) && s[0] < x
    requires |t| == |s| && SortedAsc(t)
    requires t[0] == x || (|s| > 1 && t[0] == s[1])
    requires multiset(t) == multiset(s[1..]) + multiset{x}
    ensures SortedAsc([s[0]] + t)
    ensures multiset([s[0]] + t) == multiset(s) + multiset{x}
  {
    assert s == [s[0]] + s[1..];
    ConsSorted(s[0], t);
  }

  lemma ConsSorted(h: int, t: seq<int>)
    requires SortedAsc(t)
    requires |t| == 0 || h <= t[0]
    ensures SortedAsc([h] + t)
  {
    var r := [h] + t;
    forall i, j | 0 <= i < j < |r|
      ensures r[i] <= r[j]
    {
      if i > 0 {
        assert r[i] == t[i - 1] && r[j] == t[j - 1];
      } else {
        assert r[j] == t[j - 1];
      }
    }
  }

  /** `sorted(s)` */
  function Sort(s: seq<int>): (r: seq<int>)
    ensures |r| == |s|
    ensures SortedAsc(r)
    ensures multiset(r) == multiset(s)
  {
    if |s| == 0 then []
    else
      assert s == [s[0]] + s[1..];
      Insert(s[0], Sort(s[1..]))
  }

  lemma SortedHeadIsLeast(s: seq<int>, y: int)
    requires SortedAsc(s)
    requires y in multiset(s)
    ensures s[0] <= y
  {
    assert y in s;
  }

  lemma MultisetTail(a: seq<int>)
    requires |a| > 0
    ensures multiset(a[1..]) == multiset(a) - multiset{a[0]}
  {
    assert a == [a[0]] + a[1..];
  }

  lemma SortedTail(a: seq<int>)
    requires |a| > 0 && SortedAsc(a)
    ensures SortedAsc(a[1..])
  {
  }

  /** Two ascending arrangements of one multiset start alike. */
  lemma SameHead(a: seq<int>, b: seq<int>)
    requires SortedAsc(a) && SortedAsc(b)
    requires multiset(a) == multiset(b)
    requires |a| > 0
    ensures |b| == |a| && a[0] == b[0]
  {
    assert |multiset(b)| == |multiset(a)|;
    assert a[0] in multiset(a);
    SortedHeadIsLeast(b, a[0]);
    assert b[0] in multiset(b);
    SortedHeadIsLeast(a, b[0]);
  }

  /** An ascending arrangement of a multiset of numbers is unique. */
  lemma {:induction false} SortedUnique(a: seq<int>, b: seq<int>)
    requires SortedAsc(a) && SortedAsc(b)
    requires multiset(a) == multiset(b)
    ensures a == b
  {
    if |a| == 0 {
      assert |multiset(b)| == 0;
    } else {
      SameHead(a, b);
      MultisetTail(a);
      MultisetTail(b);
      SortedTail(a);
      SortedTail(b);
      SortedUnique(a[1..], b[1..]);
      ConsEqual(a, b);
    }
  }

  /** Lists agreeing on their head and on their tail are equal. */
  lemma ConsEqual(a: seq<int>, b: seq<int>)
    requires |a| > 0 && |b| > 0
    requires a[0] == b[0] && a[1..] == b[1..]
    ensures a == b
  {
    assert a == [a[0]] + a[1..];
    assert b == [b[0]] + b[1..];
  }

  /** Sorting an already sorted list changes nothing. */
  lemma SortOfSorted(s: seq<int>)
    requires SortedAsc(s)
    ensures Sort(s) == s
  {
    SortedUnique(Sort(s), s);
  }

  function Reverse<T>(s: seq<T>): (r: seq<T>)
    ensures |r| == |s|
    ensures forall i :: 0 <= i < |s| ==> r[i] == s[|s| - 1 - i]
  {
    seq(|s|, i requires 0 <= i < |s| => s[|s| - 1 - i])
  }
}
