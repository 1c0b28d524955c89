/**
 The handful of Python string operations the pipeline relies on:
 `str.lower` (ASCII letters), `str.strip` (Python's whitespace set),
 `str.replace('\n', ', ')`, the substring test `x in s` and the slice `s[:n]`.
 */
module Text {

  predicate IsUpper(c: char) {
    'A' <= c <= 'Z'
  }

  /** Lower-case one character; only ASCII letters have a case here. */
  function LowerChar(c: char): (d: char)
    ensures !IsUpper(d)
    ensures IsUpper(c) ==> d as int == c as int + 32
    ensures !IsUpper(c) ==> d == c
  {
    if IsUpper(c) then (c as int + 32) as char else c
  }

  /**
   `s.lower()`: same length, no upper-case letter left, each capital replaced by
   its small letter, everything else kept.
   */
  function Lower(s: string): (r: string)
    ensures |r| == |s|
    ensures forall i :: 0 <= i < |r| ==> !IsUpper(r[i])
    ensures forall i :: 0 <= i < |s| && IsUpper(s[i]) ==> 'a' <= r[i] <= 'z' && r[i] as int - 'a' as int == s[i] as int - 'A' as int
    ensures forall i :: 0 <= i < |s| && !IsUpper(s[i]) ==> r[i] == s[i]
  {
    seq(|s|, i requires 0 <= i < |s| => LowerChar(s[i]))
  }

  /** The characters Python's `str.strip()` and regular-expression `\s` treat as whitespace. */
  predicate IsSpace(c: char) {
    var n := c as int;
    || 0x09 <= n <= 0x0D
    || 0x1C <= n <= 0x20
    || n == 0x85 || n == 0xA0 || n == 0x1680
    || 0x2000 <= n <= 0x200A
    || n == 0x2028 || n == 0x2029 || n == 0x202F || n == 0x205F || n == 0x3000
  }

  predicate AllSpace(s: string) {
    forall i :: 0 <= i < |s| ==> IsSpace(s[i])
  }

  /** First index at or after `i` that holds no whitespace (or `|s|`). */
  function SkipSpace(s: string, i: nat): (k: nat)
    requires i <= |s|
    ensures i <= k <= |s|
    ensures forall m :: i <= m < k ==> IsSpace(s[m])
    ensures k < |s| ==> !IsSpace(s[k])
    decreases |s| - i
  {
    if i == |s| || !IsSpace(s[i]) then i else SkipSpace(s, i + 1)
  }

  /** Largest `k` in `[lo, j]` such that `s[k..j]` is all whitespace. */
  function BackSpace(s: string, lo: nat, j: nat): (k: nat)
    requires lo <= j <= |s|
    ensures lo <= k <= j
    ensures forall m :: k <= m < j ==> IsSpace(s[m])
    ensures k > lo ==> !IsSpace(s[k - 1])
    decreases j
  {
    if j == lo || !IsSpace(s[j - 1]) then j else BackSpace(s, lo, j - 1)
  }

  /** What `SkipSpace` and `BackSpace` together say about the infix they delimit. */
  lemma StripBounds(s: string, a: nat, b: nat)
    requires a == SkipSpace(s, 0) && b == BackSpace(s, a, |s|)
    ensures AllSpace(s[..a]) && AllSpace(s[b..])
    ensures a == b <==> AllSpace(s)
    ensures a < b ==> !IsSpace(s[a]) && !IsSpace(s[b - 1])
  {
    if a < b {
      assert !IsSpace(s[a]);
    }
  }

  /**
   `s.strip()`: the infix left after removing leading and trailing whitespace.
   It is empty exactly when `s` is all whitespace; otherwise it starts and ends
   with a non-whitespace character and `s` is it padded with whitespace.
   */
  function Strip(s: string): (r: string)
    ensures |r| <= |s|
    ensures r == [] <==> AllSpace(s)
    ensures r != [] ==> !IsSpace(r[0]) && !IsSpace(r[|r| - 1])
    ensures exists a :: 0 <= a <= |s| - |r| && s[a..a + |r|] == r && AllSpace(s[..a]) && AllSpace(s[a + |r|..])
  {
    var a := SkipSpace(s, 0);
    var b := BackSpace(s, a, |s|);
    StripBounds(s, a, b);
    s[a..b]
  }

  /** Stripping is idempotent: a stripped string has nothing left to strip. */
  lemma StripIdempotent(s: string)
    ensures Strip(Strip(s)) == Strip(s)
  {
    var r := Strip(s);
    var r' := Strip(r);
    if r != [] {
      var a :| 0 <= a <= |r| - |r'| && r[a..a + |r'|] == r' && AllSpace(r[..a]) && AllSpace(r[a + |r'|..]);
      assert r' != [] by { assert !AllSpace(r) by { assert !IsSpace(r[0]); } }
    }
  }

  /** A string already trimmed at both ends is left as it is by `strip`. */
  lemma StripTrimmed(s: string)
    requires s != [] && !IsSpace(s[0]) && !IsSpace(s[|s| - 1])
    ensures Strip(s) == s
  {
    var r := Strip(s);
    var a :| 0 <= a <= |s| - |r| && s[a..a + |r|] == r && AllSpace(s[..a]) && AllSpace(s[a + |r|..]);
  }

  /** The text holds no line break. */
  predicate SingleLine(s: string) {
    '\n' !in s
  }

  /** `s.replace('\n', ', ')`. */
  function ReplaceNewlines(s: string): (r: string)
    ensures '\n' !in r
    ensures SingleLine(s) ==> r == s
    ensures r == [] <==> s == []
    ensures |r| >= |s|
  {
    if s == [] then []
    else (if s[0] == '\n' then ", " else [s[0]]) + ReplaceNewlines(s[1..])
  }

  /** The replacement works piece by piece: replacing in a concatenation concatenates the replacements. */
  lemma {:induction false} ReplaceNewlinesAppend(a: string, b: string)
    ensures ReplaceNewlines(a + b) == ReplaceNewlines(a) + ReplaceNewlines(b)
    decreases |a|
  {
    if a != [] {
      var h := if a[0] == '\n' then ", " else [a[0]];
      assert (a + b)[0] == a[0];
      assert (a + b)[1..] == a[1..] + b;
      ReplaceNewlinesAppend(a[1..], b);
      assert ReplaceNewlines(a + b) == h + ReplaceNewlines(a[1..] + b);
    } else {
      assert a + b == b;
    }
  }

  /** Each line break becomes ", ": the text on either side is joined by a comma and a space. */
  lemma ReplaceNewlinesJoins(a: string, b: string)
    ensures ReplaceNewlines(a + "\n" + b) == ReplaceNewlines(a) + ", " + ReplaceNewlines(b)
  {
    ReplaceNewlinesAppend(a + "\n", b);
    ReplaceNewlinesAppend(a, "\n");
    assert ReplaceNewlines("\n") == ", " by {
      assert "\n"[1..] == [];
    }
  }

  /** `sub in s` for strings: `sub` occurs at some position of `s`. */
  function Contains(s: string, sub: string): (b: bool)
    ensures b <==> exists i :: 0 <= i <= |s| - |sub| && sub <= s[i..]
    decreases |s|
  {
    if |s| < |sub| then false
    else if sub <= s then (assert s[0..] == s; true)
    else if s == [] then false
    else
      var rest := Contains(s[1..], sub);
      assert forall i :: 1 <= i <= |s| ==> s[i..] == s[1..][i - 1..];
      rest
  }

  /** An occurrence of `big` is an occurrence of each of its prefixes. */
  lemma {:induction false} ContainsPrefix(s: string, big: string, small: string)
    requires small <= big
    requires Contains(s, big)
    ensures Contains(s, small)
  {
    var i :| 0 <= i <= |s| - |big| && big <= s[i..];
    assert small <= s[i..];
  }

  /**
   The first `n` elements of `xs`, or all of them when there are fewer: Python's
   `s[:n]` for a non-negative bound, and SQL's `LIMIT n` over the rows a query
   returns.
   */
  function Truncate<T>(xs: seq<T>, n: nat): (r: seq<T>)
    ensures |r| == if |xs| <= n then |xs| else n
    ensures r <= xs
  {
    if |xs| <= n then xs else xs[..n]
  }
}
