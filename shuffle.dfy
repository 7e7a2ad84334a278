/** The page's Fisher–Yates shuffle (src/pages/Index.tsx:41-48): it copies its input
    into a fresh array and, for `i` from the last index down to 1, swaps position `i`
    with a position `j` drawn from `[0, i]`. */
module Shuffle {

  /** `Math.floor(Math.random() * (i + 1))` is modelled as an arbitrary choice of `j` in
      `[0, i]`: the result is a permutation of the input whatever the draws are. The
      input is a value, so the caller's list is untouched. */
  method Shuffle<T>(input: seq<T>) returns (shuffled: seq<T>)
    ensures |shuffled| == |input|
    ensures multiset(shuffled) == multiset(input)
  {
    var a := new T[|input|](k requires 0 <= k < |input| => input[k]);
    assert a[..] == input;
    var i := a.Length - 1;
    while i > 0
      invariant -1 <= i < a.Length
      invariant multiset(a[..]) == multiset(input)
    {
      var j :| 0 <= j <= i;
      var t := a[i];
      a[i] := a[j];
      a[j] := t;
      i := i - 1;
    }
    shuffled := a[..];
  }
}
