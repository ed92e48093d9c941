/**
  Java's `String.trim()` on strings modelled as sequences of chars.

  `trim` strips every leading and trailing char whose code is at most
  U+0020: the space and all C0 control characters. It is not the same test
  as `Character.isWhitespace`.
*/
module JavaString {

  /** A char that `trim` strips from either end. */
  predicate IsTrimmable(c: char) {
    c <= ' '
  }

  /** Every char of `s` would be stripped. */
  predicate AllTrimmable(s: string) {
    forall k :: 0 <= k < |s| ==> IsTrimmable(s[k])
  }

  /** Neither end of `s` carries a strippable char. */
  predicate IsTrimmed(s: string) {
    |s| == 0 || (!IsTrimmable(s[0]) && !IsTrimmable(s[|s| - 1]))
  }

  /** `s[i..j]` is what is left once both margins are stripped: `s[..i]` and
      `s[j..]` hold only strippable chars and the middle, when not empty,
      starts and ends with a kept char. This describes the result of `trim`
      independently of how it is computed. */
  predicate Margins(s: string, i: int, j: int) {
    && 0 <= i <= j <= |s|
    && (forall k :: 0 <= k < i ==> IsTrimmable(s[k]))
    && (forall k :: j <= k < |s| ==> IsTrimmable(s[k]))
    && (i < j ==> !IsTrimmable(s[i]) && !IsTrimmable(s[j - 1]))
  }

  /** The first kept char of `s` at or after `i`, or `|s|` when there is
      none: the JDK's forward scan. */
  function FirstKept(s: string, i: nat): (k: nat)
    requires i <= |s|
    ensures i <= k <= |s|
    ensures forall m :: i <= m < k ==> IsTrimmable(s[m])
    ensures k < |s| ==> !IsTrimmable(s[k])
    decreases |s| - i
  {
    if i < |s| && IsTrimmable(s[i]) then FirstKept(s, i + 1) else i
  }

  /** One past the last kept char of `s[lo..hi]`, or `lo` when there is
      none: the JDK's backward scan, which never passes the forward one. */
  function EndKept(s: string, lo: nat, hi: nat): (k: nat)
    requires lo <= hi <= |s|
    ensures lo <= k <= hi
    ensures forall m :: k <= m < hi ==> IsTrimmable(s[m])
    ensures lo < k ==> !IsTrimmable(s[k - 1])
    decreases hi
  {
    if lo < hi && IsTrimmable(s[hi - 1]) then EndKept(s, lo, hi - 1) else hi
  }

  /** `String.trim()`: the chars between the two scans. */
  function Trim(s: string): (r: string)
    ensures |r| <= |s|
    ensures IsTrimmed(r)
    ensures r == [] <==> AllTrimmable(s)
  {
    var st := FirstKept(s, 0);
    var len := EndKept(s, st, |s|);
    assert st < |s| ==> st < len;
    s[st..len]
  }

  /** The trimmed string is the middle of `s` between its two margins. */
  lemma TrimIsMiddle(s: string)
    ensures var st := FirstKept(s, 0);
            var len := EndKept(s, st, |s|);
            Margins(s, st, len) && Trim(s) == s[st..len]
  {
  }

  /** Any split of `s` into two strippable margins around a middle that
      starts and ends with a kept char is the one `trim` finds. */
  lemma TrimUnique(s: string, i: int, j: int)
    requires Margins(s, i, j)
    ensures Trim(s) == s[i..j]
  {
  }

  /** A string is left alone by `trim` exactly when it is already trimmed. */
  lemma TrimFixpoint(s: string)
    ensures Trim(s) == s <==> IsTrimmed(s)
  {
    if IsTrimmed(s) {
      assert s[0..|s|] == s;
      TrimUnique(s, 0, |s|);
    }
  }

  /** Trimming twice is trimming once. */
  lemma TrimIdempotent(s: string)
    ensures Trim(Trim(s)) == Trim(s)
  {
    TrimFixpoint(Trim(s));
  }

  /** The JDK's `trim` as written there: advance `st` over the leading
      margin, pull `len` back over the trailing one without passing `st`,
      and return `s[st..len]`. */
  method TrimScan(s: string) returns (r: string)
    ensures r == Trim(s)
  {
    var st := 0;
    var len := |s|;
    while st < len && IsTrimmable(s[st])
      invariant 0 <= st <= len == |s|
      invariant FirstKept(s, st) == FirstKept(s, 0)
    {
      st := st + 1;
    }
    while st < len && IsTrimmable(s[len - 1])
      invariant st <= len <= |s|
      invariant EndKept(s, st, len) == EndKept(s, st, |s|)
    {
      len := len - 1;
    }
    r := s[st..len];
  }
}
