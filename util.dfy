/**
 * Shared value types and the string primitives of the JVM that the bot
 * relies on: ASCII case folding, Java's and Kotlin's `trim`, the regex
 * class `\s`, Kotlin's `split(Regex("\\s+"), 2)` and `String.toInt`.
 * A `char` is one Unicode scalar value, so an emoji outside the Basic
 * Multilingual Plane counts as one character where Java counts two.
 */
module Util {

  datatype Option<T> = None | Some(value: T)

  datatype Result<T> = Ok(value: T) | Err(error: string)
  {
    predicate IsOk() { this.Ok? }
  }

  /** A list used as a set: no value occurs twice. */
  predicate NoDups<T(==)>(s: seq<T>)
  {
    forall i, j :: 0 <= i < j < |s| ==> s[i] != s[j]
  }

  // ---------------------------------------------------------------- case

  function LowerChar(c: char): char
  {
    if 'A' <= c <= 'Z' then (c as int + 32) as char else c
  }

  function UpperChar(c: char): char
  {
    if 'a' <= c <= 'z' then (c as int - 32) as char else c
  }

  /** `String.toLowerCase()`, restricted to ASCII letters. */
  function Lower(s: string): (r: string)
    ensures |r| == |s|
    ensures forall i :: 0 <= i < |s| ==> r[i] == LowerChar(s[i])
  {
    if s == [] then [] else [LowerChar(s[0])] + Lower(s[1..])
  }

  function Upper(s: string): (r: string)
    ensures |r| == |s|
    ensures forall i :: 0 <= i < |s| ==> r[i] == UpperChar(s[i])
  {
    if s == [] then [] else [UpperChar(s[0])] + Upper(s[1..])
  }

  /** `equalsIgnoreCase` / `equals(other, ignoreCase = true)`. */
  predicate EqIgnoreCase(a: string, b: string)
  {
    Lower(a) == Lower(b)
  }

  /** A text with no upper-case ASCII letter is its own lower case. */
  lemma LowerOfNoUpper(s: string)
    requires forall i :: 0 <= i < |s| ==> !('A' <= s[i] <= 'Z')
    ensures Lower(s) == s
  {
    assert forall i :: 0 <= i < |s| ==> Lower(s)[i] == s[i];
  }

  lemma LowerIdempotent(s: string)
    ensures Lower(Lower(s)) == Lower(s)
  {
  }

  lemma LowerOfConcat(a: string, b: string)
    ensures Lower(a + b) == Lower(a) + Lower(b)
  {
  }

  lemma LowerOfSlice(s: string, i: nat, j: nat)
    requires i <= j <= |s|
    ensures Lower(s[i..j]) == Lower(s)[i..j]
  {
  }

  // ---------------------------------------------------------- substrings

  predicate StartsWith(s: string, p: string)
  {
    |p| <= |s| && s[..|p|] == p
  }

  predicate EndsWith(s: string, p: string)
  {
    |p| <= |s| && s[|s| - |p|..] == p
  }

  /** `startsWith(p, ignoreCase = true)`. */
  predicate StartsWithIgnoreCase(s: string, p: string)
  {
    StartsWith(Lower(s), Lower(p))
  }

  predicate OccursAt(s: string, p: string, i: nat)
  {
    i + |p| <= |s| && s[i..i + |p|] == p
  }

  predicate Contains(s: string, p: string)
  {
    exists i: nat | i <= |s| :: OccursAt(s, p, i)
  }

  /** First index at or after `from` where `p` occurs, or -1 (`indexOf`). */
  function IndexOfFrom(s: string, p: string, from: nat): (r: int)
    decreases |s| - from
    ensures r == -1 || (from <= r && OccursAt(s, p, r))
    ensures r == -1 ==> forall k: nat :: from <= k ==> !OccursAt(s, p, k)
    ensures r != -1 ==> forall k: nat :: from <= k < r ==> !OccursAt(s, p, k)
  {
    if from + |p| > |s| then -1
    else if OccursAt(s, p, from) then from
    else IndexOfFrom(s, p, from + 1)
  }

  function IndexOf(s: string, p: string): int
  {
    IndexOfFrom(s, p, 0)
  }

  lemma ContainsIffIndexOf(s: string, p: string)
    ensures Contains(s, p) <==> IndexOf(s, p) != -1
  {
    if IndexOf(s, p) != -1 {
      assert OccursAt(s, p, IndexOf(s, p) as nat);
    }
  }

  /** `indexOf(c)` for a single character, or -1. */
  function IndexOfChar(s: string, c: char): (r: int)
    ensures -1 <= r < |s|
    ensures r >= 0 ==> s[r] == c && c !in s[..r]
    ensures r == -1 <==> c !in s
  {
    if s == [] then -1
    else if s[0] == c then 0
    else var k := IndexOfChar(s[1..], c); if k == -1 then -1 else k + 1
  }

  // ----------------------------------------------------------- whitespace

  /** `Character.isWhitespace(c) || Character.isSpaceChar(c)`, used by Kotlin's `trim()`. */
  predicate KotlinSpace(c: char)
  {
    c == ' ' || ('\t' <= c <= '\r') || ('\U{001C}' <= c <= '\U{001F}')
    || c == '\U{00A0}' || c == '\U{1680}' || ('\U{2000}' <= c <= '\U{200A}')
    || c == '\U{2028}' || c == '\U{2029}' || c == '\U{202F}' || c == '\U{205F}'
    || c == '\U{3000}'
  }

  /** Java's `String.trim()` drops every character up to U+0020. */
  predicate JavaSpace(c: char)
  {
    c <= ' '
  }

  /** The regex class `\s`: `[ \t\n\x0B\f\r]`. */
  predicate RegexSpace(c: char)
  {
    c == ' ' || c == '\t' || c == '\n' || c == '\U{000B}' || c == '\U{000C}' || c == '\r'
  }

  lemma RegexSpaceIsKotlinSpace(c: char)
    ensures RegexSpace(c) ==> KotlinSpace(c) && JavaSpace(c)
  {
  }

  /** Number of leading characters for which `ws` holds. */
  function LeadingCount(s: string, ws: char -> bool): (r: nat)
    ensures r <= |s|
    ensures forall k :: 0 <= k < r ==> ws(s[k])
    ensures r < |s| ==> !ws(s[r])
  {
    if s == [] || !ws(s[0]) then 0 else 1 + LeadingCount(s[1..], ws)
  }

  /** Index just past the last character for which `ws` fails (0 if none). */
  function TrailingStart(s: string, ws: char -> bool): (r: nat)
    ensures r <= |s|
    ensures forall k :: r <= k < |s| ==> ws(s[k])
    ensures r > 0 ==> !ws(s[r - 1])
  {
    if s == [] || !ws(s[|s| - 1]) then |s| else TrailingStart(s[..|s| - 1], ws)
  }

  lemma TrailingAfterLeading(s: string, ws: char -> bool)
    ensures LeadingCount(s, ws) < |s| ==> LeadingCount(s, ws) < TrailingStart(s, ws)
    ensures LeadingCount(s, ws) == |s| ==> TrailingStart(s, ws) == 0
  {
    RunsInOrder(s, ws, LeadingCount(s, ws), TrailingStart(s, ws));
  }

  /** A leading run of `ws` ending at `a` and a trailing one starting at `b` do not cross. */
  lemma RunsInOrder(s: string, ws: char -> bool, a: nat, b: nat)
    requires a <= |s| && b <= |s|
    requires forall k :: 0 <= k < a ==> ws(s[k])
    requires a < |s| ==> !ws(s[a])
    requires forall k :: b <= k < |s| ==> ws(s[k])
    requires b > 0 ==> !ws(s[b - 1])
    ensures a < |s| ==> a < b
    ensures a == |s| ==> b == 0
  {
    if a < |s| {
      assert !ws(s[a]);
    }
    if b > 0 {
      assert !ws(s[b - 1]);
    }
  }

  /** Trims characters satisfying `ws` from both ends. */
  function TrimWith(s: string, ws: char -> bool): (r: string)
    ensures TrimStartIndex(s, ws) + |r| <= |s|
    ensures r == s[TrimStartIndex(s, ws)..TrimStartIndex(s, ws) + |r|]
    ensures r != [] ==> !ws(r[0]) && !ws(r[|r| - 1])
    ensures forall k :: 0 <= k < TrimStartIndex(s, ws) ==> ws(s[k])
    ensures forall k :: TrimStartIndex(s, ws) + |r| <= k < |s| ==> ws(s[k])
  {
    TrailingAfterLeading(s, ws);
    var a := LeadingCount(s, ws);
    var b := TrailingStart(s, ws);
    if a < |s| then s[a..b] else []
  }

  function TrimStartIndex(s: string, ws: char -> bool): (r: nat)
    ensures r <= |s|
  {
    LeadingCount(s, ws)
  }

  /** Java `String.trim()`. */
  function JavaTrim(s: string): string { TrimWith(s, JavaSpace) }

  /** Kotlin `String.trim()`. */
  function KotlinTrim(s: string): string { TrimWith(s, KotlinSpace) }

  lemma TrimIsNoOpOnTrimmed(s: string, ws: char -> bool)
    requires s == [] || (!ws(s[0]) && !ws(s[|s| - 1]))
    ensures TrimWith(s, ws) == s
  {
  }

  lemma TrimOfWhitespace(s: string, ws: char -> bool)
    requires forall k :: 0 <= k < |s| ==> ws(s[k])
    ensures TrimWith(s, ws) == []
  {
  }

  // ----------------------------------------------------------- splitting

  /** Index of the first `\s` character at or after `from`, or `|s|`. */
  function FirstSpace(s: string, from: nat): (r: nat)
    requires from <= |s|
    decreases |s| - from
    ensures from <= r <= |s|
    ensures forall k :: from <= k < r ==> !RegexSpace(s[k])
    ensures r < |s| ==> RegexSpace(s[r])
  {
    if from == |s| || RegexSpace(s[from]) then from else FirstSpace(s, from + 1)
  }

  /** Index of the first non-`\s` character at or after `from`, or `|s|`. */
  function SpaceRunEnd(s: string, from: nat): (r: nat)
    requires from <= |s|
    decreases |s| - from
    ensures from <= r <= |s|
    ensures forall k :: from <= k < r ==> RegexSpace(s[k])
    ensures r < |s| ==> !RegexSpace(s[r])
  {
    if from == |s| || !RegexSpace(s[from]) then from else SpaceRunEnd(s, from + 1)
  }

  /**
   * Kotlin `s.split(Regex("\\s+"), 2)`: the text before the first run of
   * whitespace and, when there is such a run, the text after it (possibly
   * empty; Kotlin keeps trailing empty strings).
   */
  function SplitFirstSpace(s: string): (r: seq<string>)
    ensures 1 <= |r| <= 2
    ensures forall k :: 0 <= k < |r[0]| ==> !RegexSpace(r[0][k])
    ensures |r| == 1 <==> (forall k :: 0 <= k < |s| ==> !RegexSpace(s[k]))
    ensures |r| == 1 ==> r[0] == s
    ensures |r| == 2 ==> StartsWith(s, r[0]) && EndsWith(s, r[1])
                         && |r[0]| < |s| - |r[1]|
                         && forall k :: |r[0]| <= k < |s| - |r[1]| ==> RegexSpace(s[k])
    ensures |r| == 2 ==> r[1] == [] || !RegexSpace(r[1][0])
  {
    var i := FirstSpace(s, 0);
    if i == |s| then [s]
    else
      var j := SpaceRunEnd(s, i);
      assert s[..i] + s[i..j] + s[j..] == s;
      [s[..i], s[j..]]
  }

  /** Kotlin `s.split(Regex("\\s+"))` without a limit: every piece, empty ones included. */
  function SplitAllSpaces(s: string): (r: seq<string>)
    decreases |s|
    ensures |r| >= 1
    ensures forall p :: p in r ==> forall k :: 0 <= k < |p| ==> !RegexSpace(p[k])
  {
    var i := FirstSpace(s, 0);
    if i == |s| then [s]
    else
      var j := SpaceRunEnd(s, i);
      [s[..i]] + SplitAllSpaces(s[j..])
  }

  lemma SplitAllHead(s: string)
    ensures SplitAllSpaces(s)[0] == SplitFirstSpace(s)[0]
  {
  }

  /** `joinToString(" ")`. */
  function JoinSpace(parts: seq<string>): string
  {
    if parts == [] then ""
    else if |parts| == 1 then parts[0]
    else parts[0] + " " + JoinSpace(parts[1..])
  }

  /** A non-empty piece without `\s`: what a `\s+` split yields between runs. */
  predicate Word(w: string)
  {
    |w| > 0 && forall k :: 0 <= k < |w| ==> !RegexSpace(w[k])
  }

  predicate Words(ws: seq<string>)
  {
    forall k :: 0 <= k < |ws| ==> Word(ws[k])
  }

  /** In `a + [c] + b` with no `\s` in `a` and `c` a `\s`, the first run starts at `|a|`. */
  lemma FirstSpaceAfterWord(a: string, b: string)
    requires forall k :: 0 <= k < |a| ==> !RegexSpace(a[k])
    requires b == [] || !RegexSpace(b[0])
    ensures FirstSpace(a + " " + b, 0) == |a|
    ensures SpaceRunEnd(a + " " + b, |a|) == |a| + 1
    ensures (a + " " + b)[..|a|] == a && (a + " " + b)[|a| + 1..] == b
  {
    var s := a + " " + b;
    assert s[..|a|] == a;
    assert s[|a| + 1..] == b;
    assert s[|a|] == ' ';
    FirstSpaceAt(s, |a|);
    assert b != [] ==> s[|a| + 1] == b[0];
    SpaceRunEndAt(s, |a|);
  }

  /** The first `\s` is at `n` when the text before `n` has none and `s[n]` is one. */
  lemma FirstSpaceAt(s: string, n: nat)
    requires n < |s| && RegexSpace(s[n])
    requires forall k :: 0 <= k < n ==> !RegexSpace(s[..n][k])
    ensures FirstSpace(s, 0) == n
  {
    assert forall k :: 0 <= k < n ==> s[..n][k] == s[k];
  }

  /** A run of one `\s` at `n` ends at `n + 1`. */
  lemma SpaceRunEndAt(s: string, n: nat)
    requires n < |s| && RegexSpace(s[n])
    requires n + 1 == |s| || !RegexSpace(s[n + 1])
    ensures SpaceRunEnd(s, n) == n + 1
  {
  }

  /** Splitting the joined words in two gives the first word and the joined rest. */
  lemma SplitFirstSpaceOfJoin(ws: seq<string>)
    requires |ws| >= 1 && Words(ws)
    ensures SplitFirstSpace(JoinSpace(ws)) == if |ws| == 1 then [ws[0]] else [ws[0], JoinSpace(ws[1..])]
  {
    assert Word(ws[0]);
    if |ws| > 1 {
      assert Word(ws[1]);
      var rest := JoinSpace(ws[1..]);
      assert rest[0] == ws[1][0];
      FirstSpaceAfterWord(ws[0], rest);
    }
  }

  /** Splitting the joined words on every `\s` run gives the words back. */
  lemma {:induction false} SplitAllSpacesOfJoin(ws: seq<string>)
    requires |ws| >= 1 && Words(ws)
    ensures SplitAllSpaces(JoinSpace(ws)) == ws
    decreases |ws|
  {
    assert Word(ws[0]);
    if |ws| > 1 {
      assert Word(ws[1]);
      var rest := JoinSpace(ws[1..]);
      assert rest[0] == ws[1][0];
      FirstSpaceAfterWord(ws[0], rest);
      SplitAllSpacesOfJoin(ws[1..]);
    }
  }

  // ------------------------------------------------------------- numbers

  const INT_MIN: int := -0x8000_0000
  const INT_MAX: int := 0x7FFF_FFFF
  const LONG_MIN: int := -0x8000_0000_0000_0000
  const LONG_MAX: int := 0x7FFF_FFFF_FFFF_FFFF

  predicate IsDigit(c: char) { '0' <= c <= '9' }

  predicate AllDigits(s: string)
  {
    forall k :: 0 <= k < |s| ==> IsDigit(s[k])
  }

  function DigitValue(c: char): nat
    requires IsDigit(c)
  {
    c as int - '0' as int
  }

  /** Value of a string of decimal digits. */
  function DigitsValue(s: string): nat
    requires AllDigits(s)
  {
    if s == [] then 0 else DigitsValue(s[..|s| - 1]) * 10 + DigitValue(s[|s| - 1])
  }

  /**
   * Kotlin `String.toInt()` (`Integer.parseInt`): an optional `+` or `-`,
   * one or more digits, and a value inside the 32-bit range; anything
   * else raises `NumberFormatException`, modelled as `None`.
   */
  function ParseInt(s: string): (r: Option<int>)
    ensures r.Some? ==> INT_MIN <= r.value <= INT_MAX
    ensures r.Some? && AllDigits(s) ==> r.value == DigitsValue(s)
  {
    if s == [] then None
    else
      var neg := s[0] == '-';
      var body := if s[0] == '-' || s[0] == '+' then s[1..] else s;
      if body == [] || !AllDigits(body) then None
      else
        var v := if neg then -(DigitsValue(body) as int) else DigitsValue(body) as int;
        if INT_MIN <= v <= INT_MAX then Some(v) else None
  }

  function DigitChar(d: nat): (c: char)
    requires d < 10
    ensures IsDigit(c) && DigitValue(c) == d
  {
    ('0' as int + d) as char
  }

  /** Decimal rendering of a natural number, as `"$n"` does. */
  function NatToString(n: nat): (r: string)
    ensures |r| >= 1 && AllDigits(r)
    ensures DigitsValue(r) == n
    ensures n > 0 ==> r[0] != '0'
  {
    if n < 10 then [DigitChar(n)]
    else
      var p := NatToString(n / 10);
      var r := p + [DigitChar(n % 10)];
      assert r[..|r| - 1] == p;
      r
  }

  /** Decimal rendering of an integer with a leading `-` when negative. */
  function IntToString(n: int): (r: string)
    ensures |r| >= 1
  {
    if n < 0 then "-" + NatToString(-n) else NatToString(n)
  }

  lemma ParseIntOfNatToString(n: nat)
    requires n <= INT_MAX
    ensures ParseInt(NatToString(n)) == Some(n)
  {
    var s := NatToString(n);
    assert s[0] != '+' && s[0] != '-' by {
      assert IsDigit(s[0]);
    }
  }
}
