/**
 * The address shortener `short` of frontend/src/components/VestingCard.tsx
 * (an identical copy is in contracts/scripts/interact.ts): the first six
 * characters, an ellipsis, and the last four, built from two calls of
 * JavaScript's `String.prototype.slice`.
 */
module VestingCard {

  function Min(a: int, b: int): int { if a <= b then a else b }

  /** U+2026 HORIZONTAL ELLIPSIS, one UTF-16 code unit. */
  const Ellipsis: char := '\U{2026}'

  /**
   * How `slice` resolves one of its arguments against a string of length
   * `len`: a negative argument counts back from the end and is clamped at
   * 0, a non-negative one is clamped at `len`.
   */
  function RelativeIndex(len: nat, k: int): (i: nat)
    ensures i <= len
    ensures k >= 0 ==> i == Min(k, len)
    ensures k < 0 ==> i == if len + k < 0 then 0 else len + k
  {
    if k < 0 then (if len + k < 0 then 0 else len + k) else Min(k, len)
  }

  /**
   * `s.slice(start, end)`: the characters from the resolved start up to
   * the resolved end, or the empty string when the end does not lie past
   * the start.
   */
  function Slice(s: string, start: int, end: int): (r: string)
    ensures |r| <= |s|
    ensures RelativeIndex(|s|, start) < RelativeIndex(|s|, end) ==>
              r == s[RelativeIndex(|s|, start)..RelativeIndex(|s|, end)]
    ensures RelativeIndex(|s|, end) <= RelativeIndex(|s|, start) ==> r == []
    // from the start, `slice(0, n)` is the first n characters (all of them when n >= |s|)
    ensures start == 0 && end >= 0 ==> r == s[..Min(end, |s|)]
  {
    var from := RelativeIndex(|s|, start);
    var to := RelativeIndex(|s|, end);
    if from < to then s[from..to] else []
  }

  /** `s.slice(start)`: the end defaults to the length of `s`. */
  function SliceFrom(s: string, start: int): (r: string)
    ensures r == s[RelativeIndex(|s|, start)..]
    // `slice(-n)` is the last n characters (all of them when n >= |s|)
    ensures start < 0 ==> r == s[|s| - Min(-start, |s|)..]
  {
    Slice(s, start, |s|)
  }

  /** Cutting at any non-negative index and joining the two slices gives back the string. */
  lemma SliceSplit(s: string, k: int)
    requires k >= 0
    ensures Slice(s, 0, k) + SliceFrom(s, k) == s
  {
    assert s[..Min(k, |s|)] + s[Min(k, |s|)..] == s;
  }

  /** `short(addr)`: `${addr.slice(0, 6)}…${addr.slice(-4)}`. */
  function Short(addr: string): (r: string)
    // six (or fewer) leading characters, the ellipsis, four (or fewer) trailing ones
    ensures |r| == Min(6, |addr|) + 1 + Min(4, |addr|)
    ensures |addr| >= 10 ==> |r| == 11
    // the prefix of the result is the prefix of the address
    ensures r[..Min(6, |addr|)] == addr[..Min(6, |addr|)]
    // the ellipsis follows the prefix immediately
    ensures r[Min(6, |addr|)] == Ellipsis
    // the suffix of the result is the suffix of the address
    ensures r[|r| - Min(4, |addr|)..] == addr[|addr| - Min(4, |addr|)..]
  {
    Slice(addr, 0, 6) + [Ellipsis] + SliceFrom(addr, -4)
  }

  /**
   * For a `0x`-prefixed 20-byte hex address (42 characters), the result
   * shows `0x` and two bytes' worth of digits, then the last four digits.
   */
  lemma ShortOfAddress(addr: string)
    requires |addr| == 42
    ensures Short(addr) == addr[..6] + [Ellipsis] + addr[38..]
  {
  }

  /**
   * A string of at most four characters is not shortened: both slices
   * are the whole string, so it is shown twice around the ellipsis.
   */
  lemma ShortOfShortString(addr: string)
    requires |addr| <= 4
    ensures Short(addr) == addr + [Ellipsis] + addr
  {
  }
}
