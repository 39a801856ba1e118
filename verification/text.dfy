/** Whitespace and `str.strip()` as Python defines them. One whitespace
    predicate serves both stripping and the scanner's gap check. */
module Text {

  /** Python's `str.isspace()` for one character: the code points whose
      bidirectional class is WS, B or S, or whose category is Zs. */
  predicate IsSpace(c: char) {
    var n := c as int;
    || (9 <= n <= 13)
    || (28 <= n <= 32)
    || n == 0x85
    || n == 0xA0
    || n == 0x1680
    || (0x2000 <= n <= 0x200A)
    || n == 0x2028
    || n == 0x2029
    || n == 0x202F
    || n == 0x205F
    || n == 0x3000
  }

  predicate AllSpace(s: string) {
    forall k :: 0 <= k < |s| ==> IsSpace(s[k])
  }

  /** Neither end of `s` is whitespace (vacuously true of the empty string). */
  predicate IsStripped(s: string) {
    s == [] || (!IsSpace(s[0]) && !IsSpace(s[|s| - 1]))
  }

  /** The first index at or after `i` that does not hold whitespace. */
  function SkipSpace(s: string, i: nat): (r: nat)
    requires i <= |s|
    ensures i <= r <= |s|
    ensures forall k :: i <= k < r ==> IsSpace(s[k])
    ensures r == |s| || !IsSpace(s[r])
    decreases |s| - i
  {
    if i < |s| && IsSpace(s[i]) then SkipSpace(s, i + 1) else i
  }

  /** The least index `r <= j` such that `s[r..j]` is all whitespace. */
  function SkipSpaceBack(s: string, j: nat): (r: nat)
    requires j <= |s|
    ensures r <= j
    ensures forall k :: r <= k < j ==> IsSpace(s[k])
    ensures r == 0 || !IsSpace(s[r - 1])
  {
    if j > 0 && IsSpace(s[j - 1]) then SkipSpaceBack(s, j - 1) else j
  }

  /** Python's `str.lstrip()`. */
  function TrimStart(s: string): string {
    s[SkipSpace(s, 0)..]
  }

  /** Python's `str.rstrip()`. */
  function TrimEnd(s: string): string {
    s[..SkipSpaceBack(s, |s|)]
  }

  /** Where the stripped text of `s` starts. */
  function StripLo(s: string): nat
    ensures StripLo(s) <= |s|
  {
    SkipSpace(s, 0)
  }

  /** Python's `str.strip()`: the stripped infix of `s` that begins at
      `StripLo(s)` and whose margins are all whitespace; it is empty exactly
      when `s` is all whitespace. */
  function Strip(s: string): (r: string)
    ensures IsStripped(r)
    ensures r == [] <==> AllSpace(s)
    ensures StripLo(s) + |r| <= |s|
    ensures r == s[StripLo(s)..StripLo(s) + |r|]
    ensures forall k :: 0 <= k < StripLo(s) ==> IsSpace(s[k])
    ensures forall k :: StripLo(s) + |r| <= k < |s| ==> IsSpace(s[k])
  {
    var lo := SkipSpace(s, 0);
    if lo == |s| then
      []
    else
      var hi := SkipSpaceBack(s, |s|);
      assert lo < hi;
      s[lo..hi]
  }

  /** Uniqueness: a string made of whitespace, a stripped core and whitespace
      strips to exactly that core. */
  lemma StripUnique(a: string, r: string, b: string)
    requires AllSpace(a) && AllSpace(b) && IsStripped(r)
    ensures Strip(a + r + b) == r
  {
    var s := a + r + b;
    var lo := StripLo(s);
    var t := Strip(s);
    if r == [] {
      assert AllSpace(s) by {
        forall k | 0 <= k < |s|
          ensures IsSpace(s[k])
        {
          if k < |a| {
            assert s[k] == a[k];
          } else {
            assert s[k] == b[k - |a|];
          }
        }
      }
    } else {
      assert s[|a|] == r[0];
      assert s[|a| + |r| - 1] == r[|r| - 1];
      assert lo == |a|;
      assert |t| == |r|;
      assert t == s[|a|..|a| + |r|];
    }
  }

  /** `str.strip()` is `str.lstrip()` followed by `str.rstrip()`. */
  lemma StripIsTrims(s: string)
    ensures Strip(s) == TrimEnd(TrimStart(s))
  {
    var lo := StripLo(s);
    var r := Strip(s);
    var t := TrimStart(s);
    assert t == s[lo..];
    var hi := SkipSpaceBack(t, |t|);
    if r != [] {
      assert t[|r| - 1] == r[|r| - 1];
      assert hi == |r|;
    }
  }

  /** Stripping is idempotent; in particular a stripped string strips to itself. */
  lemma StripOfStripped(s: string)
    requires IsStripped(s)
    ensures Strip(s) == s
  {
    StripUnique([], s, []);
    assert [] + s + [] == s;
  }
}
