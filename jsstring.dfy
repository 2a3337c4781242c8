/**
 * JavaScript's String.prototype.slice (ECMA-262, section 22.1.3.22, "String.prototype.slice"),
 * on strings as sequences of UTF-16 code units (here: characters).
 *
 * A negative position counts from the end of the string; every position is then
 * clamped to [0, length]; the result is empty when the clamped start is not
 * before the clamped end.
 */
module JsString {

  /** `x` occurs in `s` starting at offset `lo`. */
  predicate RunAt(s: string, lo: int, x: string) {
    0 <= lo && lo + |x| <= |s| && forall i :: 0 <= i < |x| ==> x[i] == s[lo + i]
  }

  /** The position `x` of a `slice` argument, resolved against a string of length `len`. */
  function RelativeIndex(x: int, len: nat): (r: nat)
    ensures r <= len
  {
    if x < 0 then
      if len + x < 0 then 0 else len + x
    else if x < len then x
    else len
  }

  /** `s.slice(a, b)`: the run of `s` from the resolved start to the resolved end, or nothing. */
  function Slice(s: string, a: int, b: int): (r: string)
    ensures RunAt(s, RelativeIndex(a, |s|), r)
    ensures |r| == if RelativeIndex(a, |s|) < RelativeIndex(b, |s|)
                   then RelativeIndex(b, |s|) - RelativeIndex(a, |s|) else 0
  {
    var from := RelativeIndex(a, |s|);
    var to := RelativeIndex(b, |s|);
    if from < to then s[from..to] else ""
  }

  /** `s.slice(a)`: the end defaults to the length of the string, so the result is a tail of `s`. */
  function SliceFrom(s: string, a: int): (r: string)
    ensures |r| == |s| - RelativeIndex(a, |s|)
    ensures RunAt(s, |s| - |r|, r)
  {
    Slice(s, a, |s|)
  }

  /** A run is the substring at its offset. */
  lemma RunAtSlice(s: string, lo: int, x: string)
    requires RunAt(s, lo, x)
    ensures x == s[lo..lo + |x|]
  {
  }

  /** A run of a run is a run of the outer string. */
  lemma RunAtWithin(s: string, lo: int, x: string, k: int, y: string)
    requires RunAt(s, lo, x) && RunAt(x, k, y)
    ensures RunAt(s, lo + k, y)
  {
    assert forall i :: 0 <= i < |y| ==> y[i] == x[k + i] == s[lo + k + i];
  }

  /** Three runs that meet end to start make one run. */
  lemma RunsJoin(s: string, lo: int, x: string, y: string, z: string)
    requires RunAt(s, lo, x) && RunAt(s, lo + |x|, y) && RunAt(s, lo + |x| + |y|, z)
    ensures RunAt(s, lo, x + y + z)
  {
    var w := x + y + z;
    forall i | 0 <= i < |w|
      ensures w[i] == s[lo + i]
    {
      if i < |x| {
      } else if i < |x| + |y| {
        assert w[i] == y[i - |x|];
      } else {
        assert w[i] == z[i - |x| - |y|];
      }
    }
  }
}
