/** `max_sum` of test.py: the largest sum of `window_size` consecutive
    elements, found by sliding one window along the list. */
module SlidingWindow {

  /** `sum(arr[start:start + k])` */
  function WindowSum(arr: seq<int>, start: nat, k: nat): int
    requires start + k <= |arr|
    decreases k
  {
    if k == 0 then 0 else WindowSum(arr, start, k - 1) + arr[start + k - 1]
  }

  /** Moving a window one step right drops its first element and adds the
      next one. */
  lemma {:induction false} SlideStep(arr: seq<int>, i: nat, k: nat)
    requires i + 1 + k <= |arr|
    ensures WindowSum(arr, i + 1, k) == WindowSum(arr, i, k) - arr[i] + arr[i + k]
    decreases k
  {
    if k > 0 {
      SlideStep(arr, i, k - 1);
    }
  }

  /** `max_sum(arr, window_size)`: -1 when the list is not longer than the
      window, otherwise the maximum over every window of that size. */
  method MaxSum(arr: seq<int>, windowSize: int) returns (r: int)
    requires windowSize >= 0
    ensures |arr| <= windowSize ==> r == -1
    ensures |arr| > windowSize ==>
              forall s :: 0 <= s <= |arr| - windowSize ==> WindowSum(arr, s, windowSize) <= r
    ensures |arr| > windowSize ==>
              exists s :: 0 <= s <= |arr| - windowSize && WindowSum(arr, s, windowSize) == r
  {
    var n := |arr|;
    if n <= windowSize {
      return -1;
    }
    var k: nat := windowSize;
    var windowSum := 0;
    var i := 0;
    while i < k
      invariant 0 <= i <= k
      invariant windowSum == WindowSum(arr, 0, i)
    {
      windowSum := windowSum + arr[i];
      i := i + 1;
    }
    var best := windowSum;
    ghost var arg := 0;
    i := 0;
    while i < n - k
      invariant 0 <= i <= n - k
      invariant windowSum == WindowSum(arr, i, k)
      invariant forall s :: 0 <= s <= i ==> WindowSum(arr, s, k) <= best
      invariant 0 <= arg <= i && WindowSum(arr, arg, k) == best
    {
      SlideStep(arr, i, k);
      windowSum := windowSum - arr[i] + arr[i + k];
      if windowSum >= best {
        best := windowSum;
        arg := i + 1;
      }
      i := i + 1;
    }
    return best;
  }

  /** The driver call `max_sum([2, 6, 9, 2, 1, 8, 5, 6, 3], 3)` gives 19,
      the sum of the window `[8, 5, 6]`. */
  method Driver() returns (r: int)
    ensures r == 19
  {
    var arr := [2, 6, 9, 2, 1, 8, 5, 6, 3];
    r := MaxSum(arr, 3);
    assert WindowSum(arr, 0, 3) == 17;
    assert WindowSum(arr, 1, 3) == 17;
    assert WindowSum(arr, 2, 3) == 12;
    assert WindowSum(arr, 3, 3) == 11;
    assert WindowSum(arr, 4, 3) == 14;
    assert WindowSum(arr, 5, 3) == 19;
    assert WindowSum(arr, 6, 3) == 14;
  }
}
