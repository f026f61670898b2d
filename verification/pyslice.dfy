/** Python's extended slicing with a step of -1, as CPython normalises its bounds. */
module PySlice {

  /** Mathematical reversal of a sequence. */
  function Reverse<T>(s: seq<T>): seq<T>
  {
    seq(|s|, i requires 0 <= i < |s| => s[|s| - 1 - i])
  }

  lemma ReverseInvolution<T>(s: seq<T>)
    ensures Reverse(Reverse(s)) == s
  {
  }

  /** How CPython adjusts a slice bound when the step is negative: a negative bound counts
      from the end, and a bound still outside the sequence is clamped to -1 or to n - 1. */
  function AdjustDown(bound: int, n: nat): (b: int)
    ensures -1 <= b <= n - 1
    ensures 0 <= bound < n ==> b == bound
    ensures -(n as int) <= bound < 0 ==> b == bound + n
    ensures n <= bound ==> b == n - 1
    ensures bound < -(n as int) ==> b == -1
  {
    if bound < 0 then (if bound + n < 0 then -1 else bound + n)
    else if bound >= n then n - 1
    else bound
  }

  /** `s[start:stop:-1]`: the elements at indices start, start - 1, ..., stop + 1 once both
      bounds are adjusted. */
  function SliceDown<T>(s: seq<T>, start: int, stop: int): (r: seq<T>)
    ensures 0 <= stop < start < |s| ==> r == Reverse(s[stop + 1 .. start + 1])
    ensures 0 <= start <= stop ==> r == []
  {
    var a := AdjustDown(start, |s|);
    var b := AdjustDown(stop, |s|);
    if a <= b then [] else seq(a - b, k requires 0 <= k < a - b => s[a - k])
  }

  /** `s[start::-1]`: with the stop omitted the slice runs down to index 0. */
  function SliceDownToFront<T>(s: seq<T>, start: int): (r: seq<T>)
    ensures 0 <= start < |s| ==> r == Reverse(s[.. start + 1])
    ensures |s| <= start ==> r == Reverse(s)
    ensures -|s| <= start < 0 ==> r == Reverse(s[.. start + |s| + 1])
    ensures start < -|s| ==> r == []
  {
    var a := AdjustDown(start, |s|);
    seq(a + 1, k requires 0 <= k < a + 1 => s[a - k])
  }

  /** `s[::-1]`: an omitted start for a negative step is the last index. */
  function Reversed<T>(s: seq<T>): (r: seq<T>)
    ensures |r| == |s|
    ensures forall i :: 0 <= i < |s| ==> r[i] == s[|s| - 1 - i]
  {
    SliceDownToFront(s, |s| - 1)
  }

  /** Python's `s[::-1]` is the reversal of `s`. */
  lemma ReversedIsReverse<T>(s: seq<T>)
    ensures Reversed(s) == Reverse(s)
  {
  }
}
