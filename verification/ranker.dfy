/** The "ranker" `sort_dictionaries`, written out identically in
    Scripts/Graph.py, Scripts/Main.py and Analysis.py: it sorts the dict's
    values on their own and zips them back onto the keys in their original
    order. The i-th key therefore receives the i-th smallest value, whatever
    value it had before; this is not a sort of (key, value) pairs. */
module Ranker {
  import opened OrderedDict
  import opened Sorting

  /** The loop `for num, names in zip(nums, names): out[names] = num`. */
  function ZipInto(acc: Dict<int>, nums: seq<int>, names: seq<string>): Dict<int>
    decreases |names|
  {
    if |nums| == 0 || |names| == 0 then acc
    else ZipInto(Put(acc, names[0], nums[0]), nums[1..], names[1..])
  }

  /** `sort_dictionaries(d)` */
  function SortDictionaries(d: Dict<int>): Dict<int> {
    ZipInto(Empty(), Sort(Values(d)), Keys(d))
  }

  /** Zipping distinct fresh names onto a dict only ever appends. */
  lemma {:induction false} ZipIntoAppends(acc: Dict<int>, nums: seq<int>, names: seq<string>)
    requires |nums| == |names|
    requires Distinct(names)
    requires forall i :: 0 <= i < |names| ==> names[i] !in Keys(acc)
    ensures ZipInto(acc, nums, names).items == acc.items + Zip(names, nums).items
    decreases |names|
  {
    if |names| > 0 {
      var acc' := Put(acc, names[0], nums[0]);
      assert acc'.items == acc.items + [(names[0], nums[0])];
      assert forall i :: 0 <= i < |names| - 1 ==> names[1..][i] !in Keys(acc');
      ZipIntoAppends(acc', nums[1..], names[1..]);
      ZipCons(names, nums);
      assert ZipInto(acc, nums, names) == ZipInto(acc', nums[1..], names[1..]);
      ConcatAssoc(acc.items, [(names[0], nums[0])], Zip(names[1..], nums[1..]).items);
    }
  }

  lemma ConcatAssoc<T>(a: seq<T>, b: seq<T>, c: seq<T>)
    ensures (a + b) + c == a + (b + c)
  {
  }

  lemma ZipCons(names: seq<string>, nums: seq<int>)
    requires |names| == |nums| > 0
    ensures Zip(names, nums).items == [(names[0], nums[0])] + Zip(names[1..], nums[1..]).items
  {
    var a := Zip(names, nums).items;
    var b := [(names[0], nums[0])] + Zip(names[1..], nums[1..]).items;
    assert |a| == |b|;
    forall i | 0 <= i < |a| ensures a[i] == b[i] {
      if i > 0 {
        assert b[i] == Zip(names[1..], nums[1..]).items[i - 1];
      }
    }
  }

  /** `sort_dictionaries` yields the dict `{keys[i]: sorted(values)[i]}`. */
  lemma SortDictionariesPairs(d: Dict<int>)
    requires Valid(d)
    ensures SortDictionaries(d) == Zip(Keys(d), Sort(Values(d)))
  {
    ZipIntoAppends(Empty(), Sort(Values(d)), Keys(d));
  }

  /** Same keys, in the same iteration order, so the same length, and still a dict. */
  lemma SortDictionariesKeepsKeys(d: Dict<int>)
    requires Valid(d)
    ensures Keys(SortDictionaries(d)) == Keys(d)
    ensures |SortDictionaries(d).items| == |d.items|
    ensures Valid(SortDictionaries(d))
  {
    SortDictionariesPairs(d);
  }

  /** The values come out ascending and are a permutation of the values that
      went in; the i-th key receives the i-th smallest value. */
  lemma SortDictionariesSortsValues(d: Dict<int>)
    requires Valid(d)
    ensures |SortDictionaries(d).items| == |d.items|
    ensures SortedAsc(Values(SortDictionaries(d)))
    ensures multiset(Values(SortDictionaries(d))) == multiset(Values(d))
    ensures forall i :: 0 <= i < |d.items| ==>
              SortDictionaries(d).items[i] == (d.items[i].0, Sort(Values(d))[i])
  {
    SortDictionariesPairs(d);
  }

  /** Ranking a ranked dict changes nothing. */
  lemma SortDictionariesIdempotent(d: Dict<int>)
    requires Valid(d)
    ensures SortDictionaries(SortDictionaries(d)) == SortDictionaries(d)
  {
    var r := SortDictionaries(d);
    SortDictionariesPairs(d);
    SortDictionariesPairs(r);
    SortOfSorted(Values(r));
    assert Zip(Keys(r), Sort(Values(r))).items == r.items;
  }

  /** A value does not travel with its key: `{a: 2, b: 1}` ranks to `{a: 1, b: 2}`. */
  lemma SortDictionariesMovesValues(a: string, b: string)
    requires a != b
    ensures SortDictionaries(Dict([(a, 2), (b, 1)])) == Dict([(a, 1), (b, 2)])
  {
    var d := Dict([(a, 2), (b, 1)]);
    PairShape(a, b, 2, 1);
    SortTwo();
    SortDictionariesSortsValues(d);
    RankedPair(SortDictionaries(d), a, b);
  }

  lemma PairShape(a: string, b: string, x: int, y: int)
    requires a != b
    ensures Valid(Dict([(a, x), (b, y)]))
    ensures Values(Dict([(a, x), (b, y)])) == [x, y]
  {
    assert Keys(Dict([(a, x), (b, y)])) == [a, b];
  }

  lemma SortTwo()
    ensures Sort([2, 1]) == [1, 2]
  {
    assert [2, 1][1..] == [1];
    assert Sort([1]) == [1];
  }

  lemma RankedPair(r: Dict<int>, a: string, b: string)
    requires |r.items| == 2 && r.items[0] == (a, 1) && r.items[1] == (b, 2)
    ensures r == Dict([(a, 1), (b, 2)])
  {
  }

  function Min(a: nat, b: nat): nat { if a <= b then a else b }

  /** `list(reversed(list(sort_dictionaries(d).items())))[:k]` */
  function TopK(d: Dict<int>, k: nat): seq<(string, int)> {
    var items := Reverse(SortDictionaries(d).items);
    items[..Min(k, |items|)]
  }

  /** The top-k list holds min(k, n) entries: the last k keys in iteration
      order, reversed, paired with the k largest values, largest first. */
  lemma TopKShape(d: Dict<int>, k: nat)
    requires Valid(d)
    ensures |TopK(d, k)| == Min(k, |d.items|)
    ensures forall i :: 0 <= i < |TopK(d, k)| ==>
              TopK(d, k)[i] == (d.items[|d.items| - 1 - i].0, Sort(Values(d))[|d.items| - 1 - i])
  {
    SortDictionariesSortsValues(d);
    SortDictionariesKeepsKeys(d);
  }

  /** Values in a top-k list never increase. */
  lemma TopKDescending(d: Dict<int>, k: nat)
    requires Valid(d)
    ensures forall i, j :: 0 <= i < j < |TopK(d, k)| ==> TopK(d, k)[i].1 >= TopK(d, k)[j].1
  {
    TopKShape(d, k);
  }

  /** Every value in the top-k list is at least every value left out of it. */
  lemma TopKDominates(d: Dict<int>, k: nat)
    requires Valid(d)
    ensures forall i, j :: 0 <= i < |TopK(d, k)| && 0 <= j < |d.items| - |TopK(d, k)| ==>
              TopK(d, k)[i].1 >= Sort(Values(d))[j]
  {
    TopKShape(d, k);
  }

  /** A shorter top list is a prefix of a longer one. */
  lemma TopKPrefix(d: Dict<int>, k1: nat, k2: nat)
    requires k1 <= k2
    ensures TopK(d, k1) == TopK(d, k2)[..|TopK(d, k1)|]
  {
  }
}
