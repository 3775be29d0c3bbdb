/**
 * Python's basic slicing `s[start:stop]` (step 1): a negative bound counts
 * from the end, and both bounds are clamped to the sequence.
 */
module PySlice {

  /** The position a slice bound denotes in a sequence of length n. */
  function Bound(i: int, n: nat): (k: nat)
    ensures k <= n
    ensures 0 <= i <= n ==> k == i
    ensures -(n as int) <= i < 0 ==> k == n + i
  {
    if i < 0 then (if i + n < 0 then 0 else i + n)
    else if i > n then n
    else i
  }

  /** `s[start:stop]`. */
  function Slice<X>(s: seq<X>, start: int, stop: int): (r: seq<X>)
    ensures |r| == if Bound(start, |s|) < Bound(stop, |s|) then Bound(stop, |s|) - Bound(start, |s|) else 0
    ensures forall k :: 0 <= k < |r| ==> Bound(start, |s|) + k < |s| && r[k] == s[Bound(start, |s|) + k]
  {
    var a, b := Bound(start, |s|), Bound(stop, |s|);
    if a < b then s[a..b] else []
  }

  /** `s[start:]`. */
  function SliceFrom<X>(s: seq<X>, start: int): seq<X>
  {
    Slice(s, start, |s|)
  }

  /** Within the sequence, a slice is the subsequence between its bounds. */
  lemma SliceInside<X>(s: seq<X>, start: int, stop: int)
    requires 0 <= start <= stop <= |s|
    ensures Slice(s, start, stop) == s[start..stop]
  {
  }

  /** `s[-k:]` keeps the last k elements, except that `s[-0:]` is all of `s`. */
  lemma SliceFromNegative<X>(s: seq<X>, k: nat)
    requires k <= |s|
    ensures SliceFrom(s, -(k as int)) == if k == 0 then s else s[|s| - k..]
  {
  }
}
