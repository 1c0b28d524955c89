/**
 The score extractor of `analyze_with_gpt` and `process_job_scores`: three
 patterns tried in a fixed order on the lower-cased analysis text, the first
 one that matches fixing the score, 0 when none does.

 The two labelled patterns (`score: N/10`, `rating: N/10`) are abstract
 matchers; the bare `N/10` pattern is written out as the leftmost search a
 regular-expression engine performs for it. Scores are exact decimals.
 */
module Scores {
  import opened Opt
  import opened Text

  type Score = r: real | 0.0 <= r

  /** A pattern searched in a text: the number it captured, if it matched. */
  type Matcher = string -> Option<Score>

  /** A job whose score reaches this is a best fit. */
  const BestFitThreshold: real := 7.0

  predicate IsBestFit(score: real) {
    score >= BestFitThreshold
  }

  /** Index of the first matcher that matches `text`, or `|ms|` when none does. */
  function FirstHit(ms: seq<Matcher>, text: string): (i: nat)
    ensures i <= |ms|
    ensures forall j :: 0 <= j < i ==> ms[j](text).None?
    ensures i < |ms| ==> ms[i](text).Some?
  {
    if ms == [] then 0
    else if ms[0](text).Some? then 0
    else 1 + FirstHit(ms[1..], text)
  }

  /** What the first matching pattern captured; nothing when no pattern matches. */
  function FirstMatch(ms: seq<Matcher>, text: string): (r: Option<Score>)
    ensures r.None? <==> forall j :: 0 <= j < |ms| ==> ms[j](text).None?
    ensures r.Some? ==> exists i :: 0 <= i < |ms| && ms[i](text) == r && forall j :: 0 <= j < i ==> ms[j](text).None?
  {
    var i := FirstHit(ms, text);
    if i < |ms| then ms[i](text) else None
  }

  /** The two patterns with a label; the bare one sits between them. */
  datatype LabelledMatchers = LabelledMatchers(scoreLabel: Matcher, ratingLabel: Matcher)

  /** The pattern list in the order `analyze_with_gpt` and `process_job_scores` try them: score label, bare `N/10`, rating label. */
  function Patterns(lm: LabelledMatchers): seq<Matcher> {
    [lm.scoreLabel, OutOfTen, lm.ratingLabel]
  }

  /**
   The score the pattern loop leaves behind, as the backfill pass uses it: the
   first pattern that matches the lower-cased text fixes it, and it stays 0 when
   none matches.
   */
  function ExtractScore(lm: LabelledMatchers, analysis: string): (s: Score)
    ensures var t := Lower(analysis);
      if lm.scoreLabel(t).Some? then s == lm.scoreLabel(t).value
      else if OutOfTen(t).Some? then s == OutOfTen(t).value
      else if lm.ratingLabel(t).Some? then s == lm.ratingLabel(t).value
      else s == 0.0
  {
    var t := Lower(analysis);
    var ps := Patterns(lm);
    assert ps[0] == lm.scoreLabel && ps[1] == OutOfTen && ps[2] == lm.ratingLabel;
    FirstMatch(ps, t).GetOr(0.0)
  }

  /** The score and best-fit flag `analyze_with_gpt` returns with the analysis text. */
  datatype Assessment = Assessment(score: Score, isBestFit: bool)

  /**
   The pattern loop of `analyze_with_gpt`: the flag starts false and the score 0,
   and both are set only by the first match. The flag always agrees with the
   threshold, so an unmatched text is never a best fit.
   */
  function Assess(lm: LabelledMatchers, analysis: string): (a: Assessment)
    ensures a.score == ExtractScore(lm, analysis)
    ensures a.isBestFit <==> IsBestFit(a.score)
    ensures FirstMatch(Patterns(lm), Lower(analysis)).None? ==> a == Assessment(0.0, false)
  {
    match FirstMatch(Patterns(lm), Lower(analysis))
    case Some(v) => Assessment(v, IsBestFit(v))
    case None => Assessment(0.0, false)
  }

  // ---------------------------------------------------------------------------
  // The bare `N/10` pattern: digits, optionally a point and more digits, then
  // optional whitespace, a slash, optional whitespace and "10".

  predicate IsDigit(c: char) {
    '0' <= c <= '9'
  }

  predicate AllDigits(s: string) {
    forall i :: 0 <= i < |s| ==> IsDigit(s[i])
  }

  /** First index at or after `i` that holds no digit (or `|s|`). */
  function SkipDigits(s: string, i: nat): (k: nat)
    requires i <= |s|
    ensures i <= k <= |s|
    ensures forall m :: i <= m < k ==> IsDigit(s[m])
    ensures k < |s| ==> !IsDigit(s[k])
    decreases |s| - i
  {
    if i == |s| || !IsDigit(s[i]) then i else SkipDigits(s, i + 1)
  }

  function DigitValue(c: char): nat
    requires IsDigit(c)
  {
    c as int - '0' as int
  }

  /** The number a string of decimal digits denotes. */
  function Natural(ds: string): nat
    requires AllDigits(ds)
  {
    if ds == [] then 0 else Natural(ds[..|ds| - 1]) * 10 + DigitValue(ds[|ds| - 1])
  }

  function Pow10(n: nat): (p: nat)
    ensures p >= 1
  {
    if n == 0 then 1 else 10 * Pow10(n - 1)
  }

  /** The number `whole.frac` denotes (just `whole` when `frac` is empty). */
  function Decimal(whole: string, frac: string): Score
    requires AllDigits(whole) && AllDigits(frac)
  {
    Natural(whole) as real + Natural(frac) as real / Pow10(|frac|) as real
  }

  /** A number the pattern captured and the position just after it. */
  datatype Number = Number(value: Score, end: nat)

  /**
   The captured group `\d+(?:\.\d+)?` at position `i`. Only the longest digit
   runs can be followed by the rest of the pattern, so backtracking into a
   shorter run never finds another match and the run is taken whole.
   */
  function NumberAt(s: string, i: nat): (r: Option<Number>)
    requires i <= |s|
    ensures r.Some? <==> i < |s| && IsDigit(s[i])
    ensures r.Some? ==> i < r.value.end <= |s|
  {
    if i == |s| || !IsDigit(s[i]) then None
    else
      var e := SkipDigits(s, i);
      if e + 1 < |s| && s[e] == '.' && IsDigit(s[e + 1]) then
        var f := SkipDigits(s, e + 1);
        Some(Number(Decimal(s[i..e], s[e + 1..f]), f))
      else
        Some(Number(Decimal(s[i..e], []), e))
  }

  /** The tail of the pattern at position `k`: whitespace, a slash, whitespace, then "10". */
  predicate SlashTenAt(s: string, k: nat)
    requires k <= |s|
  {
    var a := SkipSpace(s, k);
    a < |s| && s[a] == '/' && "10" <= s[SkipSpace(s, a + 1)..]
  }

  /** The bare pattern tried at position `i` alone. */
  function OutOfTenAt(s: string, i: nat): (r: Option<Score>)
    ensures i >= |s| || !IsDigit(s[i]) ==> r.None?
  {
    if i > |s| then None
    else match NumberAt(s, i)
    case None => None
    case Some(n) => if SlashTenAt(s, n.end) then Some(n.value) else None
  }

  /**
   A regular-expression search: the pattern is tried at each start position
   from `i` on, left to right, and the first position where it matches wins.
   */
  function SearchFrom(at: (string, nat) -> Option<Score>, s: string, i: nat): Option<Score>
    decreases |s| - i
  {
    if i > |s| then None
    else
      var m := at(s, i);
      if m.Some? || i == |s| then m else SearchFrom(at, s, i + 1)
  }

  /**
   The search is leftmost: it yields the match at the first position where the
   pattern matches, and nothing exactly when it matches at no position.
   */
  lemma {:induction false} SearchLeftmost(at: (string, nat) -> Option<Score>, s: string, i: nat)
    requires i <= |s|
    ensures var r := SearchFrom(at, s, i);
      && (r.None? <==> forall k :: i <= k <= |s| ==> at(s, k).None?)
      && (r.Some? ==> exists k :: i <= k <= |s| && at(s, k) == r && forall m :: i <= m < k ==> at(s, m).None?)
    decreases |s| - i
  {
    if at(s, i).None? && i < |s| {
      SearchLeftmost(at, s, i + 1);
    }
  }

  /** The bare `N/10` pattern searched anywhere in `s`. */
  function OutOfTen(s: string): Option<Score> {
    SearchFrom(OutOfTenAt, s, 0)
  }

  // ---------------------------------------------------------------------------
  // Writing a number: the bare pattern reads back the number a text mentions.

  function DigitChar(d: nat): (c: char)
    requires d < 10
    ensures IsDigit(c) && DigitValue(c) == d
  {
    ('0' as int + d) as char
  }

  /** The decimal digits of `n`, without leading zeros. */
  function NaturalText(n: nat): (ds: string)
    ensures ds != [] && AllDigits(ds)
  {
    if n < 10 then [DigitChar(n)] else NaturalText(n / 10) + [DigitChar(n % 10)]
  }

  /** Reading the digits of `n` gives back `n`. */
  lemma {:induction false} NaturalRoundTrip(n: nat)
    ensures Natural(NaturalText(n)) == n
  {
    var ds := NaturalText(n);
    if n >= 10 {
      NaturalRoundTrip(n / 10);
      assert ds[..|ds| - 1] == NaturalText(n / 10);
    }
  }

  /** `whole` written in decimal, followed by `.frac` when `frac` is not empty. */
  function NumberText(whole: nat, frac: string): (t: string)
    requires AllDigits(frac)
    ensures t != [] && IsDigit(t[0])
  {
    NaturalText(whole) + (if frac == [] then [] else "." + frac)
  }

  /** A scan for digits stops exactly at the first non-digit. */
  lemma SkipDigitsAt(s: string, i: nat, e: nat)
    requires i <= e <= |s|
    requires forall m :: i <= m < e ==> IsDigit(s[m])
    requires e < |s| ==> !IsDigit(s[e])
    ensures SkipDigits(s, i) == e
    decreases |s| - i
  {
    if i < e {
      SkipDigitsAt(s, i + 1, e);
    }
  }

  /** No match can start at a character that is not a digit. */
  lemma {:induction false} NoDigitNoMatch(s: string, i: nat, j: nat)
    requires i <= j < |s|
    requires forall m :: i <= m < j ==> !IsDigit(s[m])
    ensures SearchFrom(OutOfTenAt, s, i) == SearchFrom(OutOfTenAt, s, j)
    decreases j - i
  {
    if i < j {
      assert OutOfTenAt(s, i).None?;
      NoDigitNoMatch(s, i + 1, j);
    }
  }

  /** The number written at position `i` of `s` is read whole. */
  lemma {:induction false} NumberAtText(s: string, i: nat, whole: nat, frac: string)
    requires AllDigits(frac)
    requires i + |NumberText(whole, frac)| < |s|
    requires s[i..i + |NumberText(whole, frac)|] == NumberText(whole, frac)
    requires !IsDigit(s[i + |NumberText(whole, frac)|]) && s[i + |NumberText(whole, frac)|] != '.'
    ensures NumberAt(s, i) == Some(Number(Decimal(NaturalText(whole), frac), i + |NumberText(whole, frac)|))
  {
    var w := NaturalText(whole);
    var n := NumberText(whole, frac);
    var e := i + |w|;
    assert forall m :: i <= m < e ==> s[m] == w[m - i];
    SkipDigitsAt(s, i, e);
    assert s[i..e] == w;
    if frac != [] {
      assert s[e] == '.' && s[e + 1] == frac[0];
      assert forall m :: e + 1 <= m < i + |n| ==> s[m] == frac[m - e - 1];
      SkipDigitsAt(s, e + 1, i + |n|);
      assert s[e + 1..i + |n|] == frac;
    } else {
      assert s[e] == s[i + |n|];
    }
  }

  /** A slash immediately followed by "10" completes the pattern. */
  lemma SlashTenText(s: string, k: nat)
    requires k + 3 <= |s| && s[k..k + 3] == "/10"
    ensures SlashTenAt(s, k)
  {
    assert s[k] == '/';
    assert SkipSpace(s, k) == k;
    assert s[k + 1] == '1';
    assert SkipSpace(s, k + 1) == k + 1;
    assert s[k + 1..][..2] == "10";
  }

  /** A number written at position `i`, followed by "/10", with no digit before it, is the leftmost match. */
  lemma ReadsNumberAt(s: string, i: nat, whole: nat, frac: string)
    requires AllDigits(frac)
    requires i + |NumberText(whole, frac)| + 3 <= |s|
    requires forall m :: 0 <= m < i ==> !IsDigit(s[m])
    requires s[i..i + |NumberText(whole, frac)|] == NumberText(whole, frac)
    requires s[i + |NumberText(whole, frac)|..i + |NumberText(whole, frac)| + 3] == "/10"
    ensures OutOfTen(s) == Some(Decimal(NaturalText(whole), frac))
  {
    var k := i + |NumberText(whole, frac)|;
    assert s[k] == '/' by { assert s[k..k + 3][0] == s[k]; }
    NumberAtText(s, i, whole, frac);
    SlashTenText(s, k);
    NoDigitNoMatch(s, 0, i);
  }

  /**
   The bare pattern reads back a decimal number written as `N/10` after any
   digit-free text: `OutOfTen(prefix + "N.F/10" + rest)` is `N.F`.
   */
  lemma OutOfTenReadsNumber(prefix: string, whole: nat, frac: string, rest: string)
    requires forall m :: 0 <= m < |prefix| ==> !IsDigit(prefix[m])
    requires AllDigits(frac)
    ensures OutOfTen(prefix + NumberText(whole, frac) + "/10" + rest) == Some(Decimal(NaturalText(whole), frac))
  {
    var n := NumberText(whole, frac);
    var s := prefix + n + "/10" + rest;
    var i := |prefix|;
    var k := i + |n|;
    assert s[i..k] == n;
    assert s[k..k + 3] == "/10";
    ReadsNumberAt(s, i, whole, frac);
  }

  /** Whole-number mentions read back as that number, as in "I'd rate this 6/10". */
  lemma OutOfTenReadsWholeNumber(prefix: string, n: nat, rest: string)
    requires forall m :: 0 <= m < |prefix| ==> !IsDigit(prefix[m])
    ensures OutOfTen(prefix + NaturalText(n) + "/10" + rest) == Some(n as real)
  {
    OutOfTenReadsNumber(prefix, n, [], rest);
    assert NumberText(n, []) == NaturalText(n);
    NaturalRoundTrip(n);
    assert Decimal(NaturalText(n), []) == n as real;
  }

  /** A text without any digit mentions no `N/10`. */
  lemma NoDigitNoBareScore(s: string)
    requires forall m :: 0 <= m < |s| ==> !IsDigit(s[m])
    ensures OutOfTen(s).None?
  {
    SearchLeftmost(OutOfTenAt, s, 0);
  }

  /**
   An analysis that names no score, no rating and no digit at all is given the
   score 0 and is not a best fit.
   */
  lemma NoMentionScoresZero(lm: LabelledMatchers, analysis: string)
    requires lm.scoreLabel(Lower(analysis)).None? && lm.ratingLabel(Lower(analysis)).None?
    requires forall m :: 0 <= m < |analysis| ==> !IsDigit(analysis[m])
    ensures Assess(lm, analysis) == Assessment(0.0, false)
  {
    var t := Lower(analysis);
    assert forall m :: 0 <= m < |t| ==> !IsDigit(t[m]);
    NoDigitNoBareScore(t);
    assert Patterns(lm)[1] == OutOfTen;
  }

  /**
   The bare pattern does not bound the number it reads: "85/10" scores 85,
   above the ten-point scale the prompt asks for.
   */
  lemma BareScoreIsNotCapped()
    ensures OutOfTen("85/10") == Some(85.0)
  {
    assert NaturalText(85) == "85" by {
      assert NaturalText(8) == "8";
    }
    OutOfTenReadsWholeNumber([], 85, []);
    assert [] + NaturalText(85) + "/10" + [] == "85/10";
  }

  /**
   "I'd rate this 6/10" scores 6 when the labelled patterns find nothing in it:
   6 is below the threshold, so it is not a best fit.
   */
  lemma RatedSixOutOfTen(lm: LabelledMatchers)
    requires lm.scoreLabel("i'd rate this 6/10").None?
    ensures ExtractScore(lm, "I'd rate this 6/10") == 6.0
    ensures !Assess(lm, "I'd rate this 6/10").isBestFit
  {
    var prefix := "i'd rate this ";
    assert Lower("I'd rate this 6/10") == prefix + "6/10" by {
      var l := Lower("I'd rate this 6/10");
      assert l[0] == 'i';
    }
    assert NaturalText(6) == "6";
    OutOfTenReadsWholeNumber(prefix, 6, []);
    assert prefix + NaturalText(6) + "/10" + [] == prefix + "6/10";
    assert prefix + "6/10" == "i'd rate this 6/10";
  }
}
