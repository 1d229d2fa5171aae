/** Python's `str.strip()` with no argument, over Unicode code points. */
module Text {

  /** The characters Python's `str.isspace` accepts: Unicode white space
      (bidirectional class WS, B or S, or category Zs). */
  predicate IsSpace(c: char) {
    var n := c as int;
    || (0x09 <= n <= 0x0D)
    || (0x1C <= n <= 0x20)
    || n == 0x85 || n == 0xA0 || n == 0x1680
    || (0x2000 <= n <= 0x200A)
    || n == 0x2028 || n == 0x2029 || n == 0x202F || n == 0x205F || n == 0x3000
  }

  predicate AllSpace(s: string) {
    forall k :: 0 <= k < |s| ==> IsSpace(s[k])
  }

  /** Neither end of `s` is white space: what `strip` guarantees of its result. */
  predicate Stripped(s: string) {
    s == [] || (!IsSpace(s[0]) && !IsSpace(s[|s| - 1]))
  }

  /** The first position at or after `i` that is not white space (`|s|` if none). */
  function SkipSpace(s: string, i: nat): (j: nat)
    requires i <= |s|
    ensures i <= j <= |s|
    ensures forall k :: i <= k < j ==> IsSpace(s[k])
    ensures j < |s| ==> !IsSpace(s[j])
    decreases |s| - i
  {
    if i < |s| && IsSpace(s[i]) then SkipSpace(s, i + 1) else i
  }

  /** The end of `s[lo..hi]` once its trailing white space is dropped. */
  function SkipSpaceBack(s: string, lo: nat, hi: nat): (e: nat)
    requires lo <= hi <= |s|
    ensures lo <= e <= hi
    ensures forall k :: e <= k < hi ==> IsSpace(s[k])
    ensures e > lo ==> !IsSpace(s[e - 1])
    decreases hi
  {
    if hi > lo && IsSpace(s[hi - 1]) then SkipSpaceBack(s, lo, hi - 1) else hi
  }

  /** Where the stripped text starts in `s`. */
  function StripStart(s: string): nat
    ensures StripStart(s) <= |s|
  {
    SkipSpace(s, 0)
  }

  /** Where the stripped text ends in `s`. */
  function StripEnd(s: string): nat
    ensures StripStart(s) <= StripEnd(s) <= |s|
  {
    SkipSpaceBack(s, StripStart(s), |s|)
  }

  /** `s.strip()`: `lstrip` followed by `rstrip`. */
  function Strip(s: string): (r: string)
    ensures |r| <= |s|
    ensures Stripped(r)
  {
    s[StripStart(s)..StripEnd(s)]
  }

  /** `s.strip()` cuts only white space from either end of `s` and leaves
      neither end of the result white. */
  lemma StripShape(s: string)
    ensures Stripped(Strip(s))
    ensures forall k :: 0 <= k < StripStart(s) ==> IsSpace(s[k])
    ensures forall k :: StripEnd(s) <= k < |s| ==> IsSpace(s[k])
  {
    var b, e := StripStart(s), StripEnd(s);
    if b < e {
      assert Strip(s)[0] == s[b];
      assert Strip(s)[e - b - 1] == s[e - 1];
    }
  }

  /** A string that is already stripped is returned unchanged. */
  lemma StripStripped(s: string)
    requires Stripped(s)
    ensures Strip(s) == s
  {
    if s != [] {
      assert StripStart(s) == 0;
      assert StripEnd(s) == |s|;
    }
  }

  /** `strip` is idempotent. */
  lemma StripIdempotent(s: string)
    ensures Strip(Strip(s)) == Strip(s)
  {
    StripShape(s);
    StripStripped(Strip(s));
  }

  /** `s.strip()` is empty exactly when `s` is all white space (Python: `not s.strip()`). */
  lemma StripEmptyIffBlank(s: string)
    ensures Strip(s) == [] <==> AllSpace(s)
  {
    var b, e := StripStart(s), StripEnd(s);
    StripShape(s);
    if b == e {
      forall k | 0 <= k < |s| ensures IsSpace(s[k]) {
        if k >= b { assert k >= e; }
      }
    } else {
      assert Strip(s)[0] == s[b];
    }
  }

  /** Every character of `s.strip()` is a character of `s`. */
  lemma StripChars(s: string, c: char)
    requires c in Strip(s)
    ensures c in s
  {
    var b := StripStart(s);
    var k :| 0 <= k < |Strip(s)| && Strip(s)[k] == c;
    assert s[b + k] == c;
  }
}
