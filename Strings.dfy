/**
 * The string operations of java.lang.String and Apache commons-lang
 * (StringUtils) that the pipeline relies on, over Dafny strings.
 * A Java `char` is a Dafny `char`; case mapping is ASCII only.
 */
module Strings {
  import opened Wrappers

  /** Concatenation regroups freely. */
  lemma AppendAssoc<T>(a: seq<T>, b: seq<T>, c: seq<T>)
    ensures (a + b) + c == a + (b + c)
  {
  }

  /** Two sequences with the same elements are equal. */
  lemma SameElements<T>(a: seq<T>, b: seq<T>)
    requires |a| == |b| && forall i | 0 <= i < |a| :: a[i] == b[i]
    ensures a == b
  {
  }

  /** `s.startsWith(pat, i)`: `pat` occurs in `s` at index `i`. */
  predicate MatchesAt(s: string, pat: string, i: int) {
    0 <= i && i + |pat| <= |s| && s[i..i + |pat|] == pat
  }

  /** `s.contains(pat)`, also the `find()` of a literal pattern. */
  predicate Contains(s: string, pat: string) {
    exists i | 0 <= i <= |s| - |pat| :: MatchesAt(s, pat, i)
  }

  /** `s.indexOf(pat, from)`, with None for -1. */
  function IndexOf(s: string, pat: string, from: nat): (r: Option<nat>)
    decreases |s| - from
    ensures r.Some? ==> from <= r.value && MatchesAt(s, pat, r.value)
    ensures r.Some? ==> forall j | from <= j < r.value :: !MatchesAt(s, pat, j)
    ensures r.None? ==> forall j | from <= j :: !MatchesAt(s, pat, j)
  {
    if from + |pat| > |s| then None
    else if MatchesAt(s, pat, from) then Some(from)
    else IndexOf(s, pat, from + 1)
  }

  lemma ContainsIndexOf(s: string, pat: string)
    ensures Contains(s, pat) <==> IndexOf(s, pat, 0).Some?
  {
    if IndexOf(s, pat, 0).Some? {
      var i := IndexOf(s, pat, 0).value;
      assert MatchesAt(s, pat, i);
    }
  }

  /**
   * `StringUtils.substringBetween(s, open, close)`: the text between the
   * first `open` and the first `close` after it, None when either is missing.
   */
  function SubstringBetween(s: string, open: string, close: string): (r: Option<string>)
    ensures r.Some? <==> IndexOf(s, open, 0).Some? && IndexOf(s, close, IndexOf(s, open, 0).value + |open|).Some?
    ensures r.Some? && |close| > 0 ==> !Contains(r.value, close)
    ensures r.Some? ==>
      var b := IndexOf(s, open, 0).value + |open|;
      IndexOf(s, close, b) == Some(b + |r.value|) && s[b .. b + |r.value|] == r.value
  {
    match IndexOf(s, open, 0)
    case None => None
    case Some(i) =>
      match IndexOf(s, close, i + |open|)
      case None => None
      case Some(j) =>
        NoCloseBefore(s, close, i + |open|);
        Some(s[i + |open| .. j])
  }

  /** The text from `b` up to the first `close` after it holds no `close`. */
  lemma NoCloseBefore(s: string, close: string, b: nat)
    requires IndexOf(s, close, b).Some?
    ensures b <= IndexOf(s, close, b).value
    ensures |close| > 0 ==> !Contains(s[b .. IndexOf(s, close, b).value], close)
  {
    var j := IndexOf(s, close, b).value;
    var v := s[b..j];
    if |close| > 0 {
      forall k | 0 <= k <= |v| - |close| ensures !MatchesAt(v, close, k) {
        SliceOfSlice(s, b, j, k, k + |close|);
        assert !MatchesAt(s, close, b + k);
      }
    }
  }

  /** A slice of a slice is a slice of the whole. */
  lemma SliceOfSlice(s: string, b: nat, e: nat, k: nat, l: nat)
    requires b <= e <= |s| && k <= l <= e - b
    ensures s[b..e][k..l] == s[b + k .. b + l]
  {
    assert forall t | 0 <= t < l - k :: s[b..e][k..l][t] == s[b + k .. b + l][t];
  }

  /** A slice cut at two inner points is the concatenation of the three pieces. */
  lemma SliceSplit3(s: string, a: nat, b: nat, c: nat, d: nat)
    requires a <= b <= c <= d <= |s|
    ensures s[a..d] == s[a..b] + s[b..c] + s[c..d]
  {
  }

  /** What `substringBetween` returns sits in `s` between an `open` and a `close`. */
  lemma SubstringBetweenOccurs(s: string, open: string, close: string)
    requires SubstringBetween(s, open, close).Some?
    ensures Contains(s, open + SubstringBetween(s, open, close).value + close)
  {
    var i := IndexOf(s, open, 0).value;
    var b := i + |open|;
    var j := IndexOf(s, close, b).value;
    var d := j + |close|;
    var v := SubstringBetween(s, open, close).value;
    assert v == s[b..j];
    SliceSplit3(s, i, b, j, d);
    assert s[i..d] == open + v + close;
    assert MatchesAt(s, open + v + close, i);
  }

  /** `s.indexOf(c)`, with None for -1. */
  function IndexOfChar(s: string, c: char): (r: Option<nat>)
    ensures r.Some? ==> r.value < |s| && s[r.value] == c && c !in s[..r.value]
    ensures r.None? <==> c !in s
  {
    if |s| == 0 then None
    else if s[0] == c then Some(0)
    else match IndexOfChar(s[1..], c)
      case None => None
      case Some(i) => assert s[1..][..i] == s[1..i + 1]; Some(i + 1)
  }

  /** `StringUtils.substringBefore(s, c)` for a one-character separator. */
  function SubstringBefore(s: string, c: char): (r: string)
    ensures c !in r
    ensures r <= s
    ensures c in s ==> |r| < |s| && s[|r|] == c
    ensures c !in s ==> r == s
  {
    match IndexOfChar(s, c)
    case None => s
    case Some(i) => s[..i]
  }

  /** `s.endsWith(suffix)` */
  predicate EndsWith(s: string, suffix: string) {
    |suffix| <= |s| && s[|s| - |suffix|..] == suffix
  }

  /** `StringUtils.replaceChars(s, a, b)` and `s.replace(a, b)` for single characters. */
  function ReplaceChar(s: string, a: char, b: char): (r: string)
    ensures |r| == |s|
    ensures forall i | 0 <= i < |s| :: r[i] == if s[i] == a then b else s[i]
    ensures a != b ==> a !in r
  {
    if |s| == 0 then "" else [if s[0] == a then b else s[0]] + ReplaceChar(s[1..], a, b)
  }

  /** `StringUtils.remove(s, c)`: every occurrence of `c` deleted. */
  function RemoveChar(s: string, c: char): (r: string)
    ensures c !in r
    ensures |r| <= |s|
    ensures c !in s ==> r == s
  {
    if |s| == 0 then "" else (if s[0] == c then "" else [s[0]]) + RemoveChar(s[1..], c)
  }

  /** `Character.isWhitespace`, the set of code points Java treats as white space. */
  predicate IsJavaWhitespace(c: char) {
    c == ' ' || c == '\t' || c == '\n' || c == '\U{B}' || c == '\U{C}' || c == '\r'
    || ('\U{1C}' <= c <= '\U{1F}')
    || c == '\U{1680}' || ('\U{2000}' <= c <= '\U{2006}') || ('\U{2008}' <= c <= '\U{200A}')
    || c == '\U{2028}' || c == '\U{2029}' || c == '\U{205F}' || c == '\U{3000}'
  }

  /** `StringUtils.isWhitespace(s)`: true for the empty string. */
  predicate IsWhitespace(s: string) {
    |s| == 0 || (IsJavaWhitespace(s[0]) && IsWhitespace(s[1..]))
  }

  /** `isWhitespace` checks every character. */
  lemma {:induction false} IsWhitespaceEvery(s: string)
    ensures IsWhitespace(s) <==> forall i | 0 <= i < |s| :: IsJavaWhitespace(s[i])
  {
    if |s| > 0 {
      IsWhitespaceEvery(s[1..]);
      assert forall i | 1 <= i < |s| :: s[1..][i - 1] == s[i];
    }
  }

  /** `String.trim()` removes leading characters up to U+0020. */
  function TrimStart(s: string): (r: string)
    ensures r == "" || ' ' < r[0]
    ensures |r| <= |s| && r == s[|s| - |r|..]
    ensures forall i | 0 <= i < |s| - |r| :: s[i] <= ' '
  {
    if |s| > 0 && s[0] <= ' ' then TrimStart(s[1..]) else s
  }

  /** `String.trim()` removes trailing characters up to U+0020. */
  function TrimEnd(s: string): (r: string)
    ensures r == "" || ' ' < r[|r| - 1]
    ensures r <= s
    ensures forall i | |r| <= i < |s| :: s[i] <= ' '
  {
    if |s| > 0 && s[|s| - 1] <= ' ' then TrimEnd(s[..|s| - 1]) else s
  }

  /** `String.trim()` */
  function Trim(s: string): (r: string)
    ensures r == "" || (' ' < r[0] && ' ' < r[|r| - 1])
    ensures |r| <= |s|
  {
    TrimEnd(TrimStart(s))
  }

  predicate IsPadding(s: string) {
    forall i | 0 <= i < |s| :: s[i] <= ' '
  }

  lemma {:induction false} TrimStartPadded(a: string, s: string)
    requires IsPadding(a)
    ensures TrimStart(a + s) == TrimStart(s)
  {
    if |a| > 0 {
      assert (a + s)[1..] == a[1..] + s;
      TrimStartPadded(a[1..], s);
    } else {
      assert a + s == s;
    }
  }

  lemma {:induction false} TrimEndPadded(s: string, b: string)
    requires IsPadding(b)
    ensures TrimEnd(s + b) == TrimEnd(s)
  {
    if |b| > 0 {
      assert (s + b)[..|s + b| - 1] == s + b[..|b| - 1];
      TrimEndPadded(s, b[..|b| - 1]);
    } else {
      assert s + b == s;
    }
  }

  lemma {:induction false} TrimStartKeepsPaddedTail(s: string, b: string)
    requires IsPadding(b)
    ensures TrimStart(s + b) == TrimStart(s) + b || (TrimStart(s) == "" && TrimStart(s + b) == "")
  {
    if |s| > 0 && s[0] <= ' ' {
      assert (s + b)[1..] == s[1..] + b;
      TrimStartKeepsPaddedTail(s[1..], b);
    } else if |s| == 0 {
      assert s + b == b;
      TrimStartPadded(b, "");
      assert b + "" == b;
    }
  }

  /** Padding made of characters up to U+0020 on either side does not change `trim()`. */
  lemma TrimPadded(a: string, s: string, b: string)
    requires IsPadding(a) && IsPadding(b)
    ensures Trim(a + s + b) == Trim(s)
  {
    assert a + s + b == a + (s + b);
    TrimStartPadded(a, s + b);
    TrimStartKeepsPaddedTail(s, b);
    if TrimStart(s + b) == TrimStart(s) + b {
      TrimEndPadded(TrimStart(s), b);
    }
  }

  /** A string whose ends are above U+0020 is left as it is by `trim()`. */
  lemma TrimUnpadded(s: string)
    requires s == "" || (' ' < s[0] && ' ' < s[|s| - 1])
    ensures Trim(s) == s
  {
  }

  predicate IsLowerAscii(c: char) {
    'a' <= c <= 'z'
  }

  /** `Character.toUpperCase`, restricted to ASCII letters. */
  function ToUpperAscii(c: char): (r: char)
    ensures !IsLowerAscii(r)
    ensures !IsLowerAscii(c) ==> r == c
  {
    if IsLowerAscii(c) then (c as int - 32) as char else c
  }

  /** `String.toUpperCase()`, restricted to ASCII letters. */
  function UpperAscii(s: string): (r: string)
    ensures |r| == |s|
    ensures forall i | 0 <= i < |s| :: r[i] == ToUpperAscii(s[i])
  {
    if |s| == 0 then "" else [ToUpperAscii(s[0])] + UpperAscii(s[1..])
  }

  /** `t` is the upper case of `s` when it is so character by character. */
  lemma UpperAsciiOf(s: string, t: string)
    requires |s| == |t| && forall i | 0 <= i < |s| :: ToUpperAscii(s[i]) == t[i]
    ensures UpperAscii(s) == t
  {
  }

  /**
   * `StringUtils.capitalize(s)`: the first character turned to title case
   * (for an ASCII letter, its upper case), the rest unchanged.
   */
  function Capitalize(s: string): (r: string)
    ensures |r| == |s|
    ensures |s| > 0 ==> r[0] == ToUpperAscii(s[0])
    ensures forall i | 0 < i < |s| :: r[i] == s[i]
  {
    if |s| == 0 then s else [ToUpperAscii(s[0])] + s[1..]
  }

  /** `Collectors.joining(sep)` / `String.join(sep, parts)`. */
  function Join(parts: seq<string>, sep: string): string {
    if |parts| == 0 then ""
    else if |parts| == 1 then parts[0]
    else parts[0] + sep + Join(parts[1..], sep)
  }

  /** The first occurrence of a separator is found right after a part that lacks it. */
  lemma IndexOfCharAfter(a: string, c: char, b: string)
    requires c !in a
    ensures IndexOfChar(a + [c] + b, c) == Some(|a|)
  {
    var s := a + [c] + b;
    assert s[|a|] == c;
    assert s[..|a|] == a;
  }

  /** `s.split(c)` keeping every field, empty ones included: the text between consecutive `c`. */
  function SplitOn(s: string, c: char): (r: seq<string>)
    decreases |s|
    ensures |r| > 0
    ensures forall i | 0 <= i < |r| :: c !in r[i]
  {
    match IndexOfChar(s, c)
    case None => [s]
    case Some(i) => [s[..i]] + SplitOn(s[i + 1..], c)
  }

  /** A field free of the separator is split off whole. */
  lemma SplitOnAfter(a: string, c: char, b: string)
    requires c !in a
    ensures SplitOn(a + [c] + b, c) == [a] + SplitOn(b, c)
  {
    var s := a + [c] + b;
    IndexOfCharAfter(a, c, b);
    assert s[..|a|] == a;
    assert s[|a| + 1..] == b;
  }

  /** Splitting parts joined by a separator they do not contain gives the parts back. */
  lemma {:induction false} SplitOnJoin(parts: seq<string>, c: char)
    requires |parts| > 0
    requires forall i | 0 <= i < |parts| :: c !in parts[i]
    ensures SplitOn(Join(parts, [c]), c) == parts
  {
    if |parts| > 1 {
      var rest := Join(parts[1..], [c]);
      assert Join(parts, [c]) == parts[0] + [c] + rest;
      SplitOnAfter(parts[0], c, rest);
      SplitOnJoin(parts[1..], c);
      assert parts == [parts[0]] + parts[1..];
    }
  }

  /** `StringUtils.countMatches(s, c)` */
  function CountChar(s: string, c: char): nat {
    multiset(s)[c]
  }

  /** Joining parts free of the separator puts exactly one separator between neighbours. */
  lemma {:induction false} CountCharJoin(parts: seq<string>, c: char)
    requires |parts| > 0
    requires forall i | 0 <= i < |parts| :: c !in parts[i]
    ensures CountChar(Join(parts, [c]), c) == |parts| - 1
  {
    assert multiset(parts[0])[c] == 0;
    if |parts| > 1 {
      var rest := Join(parts[1..], [c]);
      CountCharJoin(parts[1..], c);
      assert multiset(parts[0] + [c] + rest) == multiset(parts[0]) + multiset([c]) + multiset(rest);
    }
  }

  function DigitChar(d: nat): (c: char)
    requires d < 10
    ensures '0' <= c <= '9'
    ensures c as int - '0' as int == d
  {
    "0123456789"[d]
  }

  function NatToString(n: nat): (r: string)
    ensures |r| > 0
    ensures forall i | 0 <= i < |r| :: '0' <= r[i] <= '9'
  {
    if n < 10 then [DigitChar(n)] else NatToString(n / 10) + [DigitChar(n % 10)]
  }

  /** `String.valueOf(int)`: decimal digits, with a leading '-' when negative. */
  function IntToString(i: int): (r: string)
    ensures |r| > 0
    ensures forall k | 0 <= k < |r| :: r[k] == '-' || '0' <= r[k] <= '9'
  {
    if i < 0 then "-" + NatToString(-i) else NatToString(i)
  }

  // ---- reading decimal digits back ----

  predicate AllDigits(s: string) {
    forall i | 0 <= i < |s| :: '0' <= s[i] <= '9'
  }

  /** The number a run of decimal digits denotes, most significant digit first. */
  function ParseNat(s: string): nat
    requires AllDigits(s)
  {
    if |s| == 0 then 0 else ParseNat(s[..|s| - 1]) * 10 + (s[|s| - 1] as int - '0' as int)
  }

  /** `Integer.parseInt` of what `String.valueOf(int)` prints: an optional '-' and digits. */
  function ParseInt(s: string): int
    requires |s| > 0 && (s[0] == '-' || '0' <= s[0] <= '9') && AllDigits(s[1..])
  {
    if s[0] == '-' then 0 - ParseNat(s[1..]) as int else ParseNat(s)
  }

  /** Reading the printed digits back gives the number, and there is no leading zero. */
  lemma {:induction false} NatToStringRoundTrip(n: nat)
    ensures AllDigits(NatToString(n)) && ParseNat(NatToString(n)) == n
    ensures NatToString(n)[0] == '0' ==> n == 0
  {
    if n >= 10 {
      NatToStringRoundTrip(n / 10);
      var r := NatToString(n);
      assert r[..|r| - 1] == NatToString(n / 10);
    }
  }

  /** Reading `String.valueOf(i)` back gives `i`. */
  lemma IntToStringRoundTrip(i: int)
    ensures var r := IntToString(i);
      |r| > 0 && (r[0] == '-' || '0' <= r[0] <= '9') && AllDigits(r[1..]) && ParseInt(r) == i
  {
    if i < 0 {
      NatToStringRoundTrip(-i);
      assert IntToString(i)[1..] == NatToString(-i);
    } else {
      NatToStringRoundTrip(i);
    }
  }
}
