/**
 * The string operations the scraper (Python) and the bot (JavaScript) rely on,
 * stated over Unicode scalar values (Dafny's `char`).
 */
module Text {

  predicate StartsWith(s: string, prefix: string) {
    |prefix| <= |s| && s[..|prefix|] == prefix
  }

  /** `needle` occurs in `s` starting at index `i`. */
  predicate OccursAt(s: string, needle: string, i: int) {
    0 <= i <= |s| - |needle| && s[i..i + |needle|] == needle
  }

  /** Python's `needle in s`; JavaScript's `s.includes(needle)`. */
  predicate Contains(s: string, needle: string) {
    exists i | 0 <= i <= |s| - |needle| :: OccursAt(s, needle, i)
  }

  // ----- case folding -----

  /**
   * Lower-casing one character for comparisons against lower-case ASCII text. Besides
   * 'A'..'Z', the only character whose Unicode lower-case form is a plain ASCII letter
   * is KELVIN SIGN (U+212A, lower-cased to 'k'); every other character is kept.
   */
  function LowerChar(c: char): char {
    if 'A' <= c <= 'Z' then (c as int + 32) as char
    else if c == '\U{212A}' then 'k'
    else c
  }

  /** Python's `s.lower()` and JavaScript's `s.toLowerCase()`, for matching ASCII text. */
  function Lower(s: string): (r: string)
    ensures |r| == |s|
    ensures forall i :: 0 <= i < |s| ==> r[i] == LowerChar(s[i])
  {
    seq(|s|, i requires 0 <= i < |s| => LowerChar(s[i]))
  }

  /** Python's `s.upper()` on ASCII text. */
  function Upper(s: string): (r: string)
    ensures |r| == |s|
  {
    seq(|s|, i requires 0 <= i < |s| => if 'a' <= s[i] <= 'z' then (s[i] as int - 32) as char else s[i])
  }

  // ----- whitespace -----

  /** The characters Python's `str.isspace()` (and so `str.strip()`) treats as whitespace. */
  predicate IsPySpace(c: char) {
    c in {'\t', '\n', '\U{0B}', '\U{0C}', '\r', '\U{1C}', '\U{1D}', '\U{1E}', '\U{1F}', ' ',
          '\U{85}', '\U{A0}', '\U{1680}', '\U{2028}', '\U{2029}', '\U{202F}', '\U{205F}', '\U{3000}'}
    || '\U{2000}' <= c <= '\U{200A}'
  }

  /** ECMAScript WhiteSpace and LineTerminator: what `String.prototype.trim` removes. */
  predicate IsJsSpace(c: char) {
    c in {'\t', '\n', '\U{0B}', '\U{0C}', '\r', ' ', '\U{A0}', '\U{1680}', '\U{2028}', '\U{2029}',
          '\U{202F}', '\U{205F}', '\U{3000}', '\U{FEFF}'}
    || '\U{2000}' <= c <= '\U{200A}'
  }

  /** The number of leading `space` characters of `s`. */
  function LeadingSpaces(s: string, space: char -> bool): (i: nat)
    ensures i <= |s|
    ensures forall k :: 0 <= k < i ==> space(s[k])
    ensures i < |s| ==> !space(s[i])
  {
    if |s| == 0 || !space(s[0]) then 0 else 1 + LeadingSpaces(s[1..], space)
  }

  /** Leading `space` characters in front of `s` add to its count of them. */
  lemma {:induction false} LeadingSpacesOfPadded(pad: string, s: string, space: char -> bool)
    requires forall k :: 0 <= k < |pad| ==> space(pad[k])
    ensures LeadingSpaces(pad + s, space) == |pad| + LeadingSpaces(s, space)
    decreases |pad|
  {
    if |pad| == 0 {
      assert pad + s == s;
    } else {
      assert (pad + s)[1..] == pad[1..] + s;
      LeadingSpacesOfPadded(pad[1..], s, space);
    }
  }

  /** The end of `s[..j]` once its trailing `space` characters at or after `lo` are dropped. */
  function EndBefore(s: string, space: char -> bool, lo: nat, j: nat): (e: nat)
    requires lo <= j <= |s|
    ensures lo <= e <= j
    ensures forall k :: e <= k < j ==> space(s[k])
    ensures e > lo ==> !space(s[e - 1])
    decreases j
  {
    if j > lo && space(s[j - 1]) then EndBefore(s, space, lo, j - 1) else j
  }

  /**
   * Removes leading and trailing `space` characters: the result is the slice of `s`
   * between its first and last non-space characters (empty when there is none).
   */
  function Strip(s: string, space: char -> bool): (r: string)
    ensures exists i, j :: 0 <= i <= j <= |s| && r == s[i..j]
              && (forall k :: 0 <= k < i ==> space(s[k]))
              && (forall k :: j <= k < |s| ==> space(s[k]))
    ensures r != [] ==> !space(r[0]) && !space(r[|r| - 1])
  {
    var i := LeadingSpaces(s, space);
    var j := EndBefore(s, space, i, |s|);
    s[i..j]
  }

  /** Python's `s.strip()`. */
  function PyStrip(s: string): string { Strip(s, IsPySpace) }

  /** JavaScript's `s.trim()`. */
  function JsTrim(s: string): string { Strip(s, IsJsSpace) }

  /** Stripping yields the empty string exactly when every character is whitespace. */
  lemma StripEmptyIffBlank(s: string, space: char -> bool)
    ensures Strip(s, space) == [] <==> forall k :: 0 <= k < |s| ==> space(s[k])
  {
    var r := Strip(s, space);
    var i, j :| 0 <= i <= j <= |s| && r == s[i..j]
              && (forall k :: 0 <= k < i ==> space(s[k]))
              && (forall k :: j <= k < |s| ==> space(s[k]));
    if r == [] {
      forall k | 0 <= k < |s| ensures space(s[k]) {
        if i <= k < j { assert false; }
      }
    } else {
      assert s[i] == r[0];
    }
  }

  // ----- left-to-right substitution -----

  /**
   * A pattern matcher: the length of the match of the pattern at the very start of
   * its argument, 0 when the pattern does not match there.
   */
  type Matcher = string -> nat

  /** The pattern `m` has a non-empty match that starts at index `i` of `s`. */
  predicate MatchesAt(s: string, m: Matcher, i: int) {
    0 <= i < |s| && 0 < m(s[i..]) <= |s| - i
  }

  /**
   * Python's `re.sub(pattern, '', s)` and `s.replace(literal, '')` for a pattern with no
   * empty match: scan left to right, delete each leftmost match, resume right after it.
   */
  function DeleteMatches(s: string, m: Matcher): (r: string)
    ensures |r| <= |s|
    decreases |s|
  {
    if |s| == 0 then s
    else if MatchesAt(s, m, 0) then DeleteMatches(s[m(s)..], m)
    else [s[0]] + DeleteMatches(s[1..], m)
  }

  /** Deleting changes the text exactly when the pattern occurs in it, and then shortens it. */
  lemma {:induction false} DeleteMatchesChangesIffMatch(s: string, m: Matcher)
    ensures DeleteMatches(s, m) == s <==> forall i :: 0 <= i < |s| ==> !MatchesAt(s, m, i)
    ensures (exists i :: 0 <= i < |s| && MatchesAt(s, m, i)) ==> |DeleteMatches(s, m)| < |s|
    decreases |s|
  {
    if |s| == 0 {
    } else if MatchesAt(s, m, 0) {
      assert |DeleteMatches(s, m)| <= |s[m(s)..]| < |s|;
    } else {
      var rest := s[1..];
      DeleteMatchesChangesIffMatch(rest, m);
      forall i | 1 <= i < |s| ensures MatchesAt(s, m, i) <==> MatchesAt(rest, m, i - 1) {
        assert rest[i - 1..] == s[i..];
      }
      if forall i :: 0 <= i < |s| ==> !MatchesAt(s, m, i) {
        forall i | 0 <= i < |rest| ensures !MatchesAt(rest, m, i) {
          assert !MatchesAt(s, m, i + 1);
        }
        assert DeleteMatches(s, m) == [s[0]] + rest == s;
      } else {
        var i :| 0 <= i < |s| && MatchesAt(s, m, i);
        assert MatchesAt(rest, m, i - 1);
        assert |DeleteMatches(s, m)| < |s|;
      }
    }
  }

  /** The matcher of a fixed, non-empty literal. */
  function Literal(pattern: string): Matcher {
    (s: string) => if |pattern| > 0 && StartsWith(s, pattern) then |pattern| else 0
  }

  /** Python's `s.replace(pattern, '')` for a non-empty literal pattern. */
  function RemoveAll(s: string, pattern: string): string {
    DeleteMatches(s, Literal(pattern))
  }

  lemma LiteralMatchesAtIffOccurs(s: string, pattern: string, i: int)
    requires |pattern| > 0 && 0 <= i < |s|
    ensures MatchesAt(s, Literal(pattern), i) <==> OccursAt(s, pattern, i)
  {
    if OccursAt(s, pattern, i) {
      assert s[i..][..|pattern|] == s[i..i + |pattern|];
    }
    if MatchesAt(s, Literal(pattern), i) {
      assert s[i..][..|pattern|] == s[i..i + |pattern|];
    }
  }

  /** Removing a literal leaves the text unchanged exactly when the literal does not occur in it. */
  lemma RemoveAllIdentityIffAbsent(s: string, pattern: string)
    requires |pattern| > 0
    ensures RemoveAll(s, pattern) == s <==> !Contains(s, pattern)
  {
    DeleteMatchesChangesIffMatch(s, Literal(pattern));
    forall i | 0 <= i < |s| ensures MatchesAt(s, Literal(pattern), i) <==> OccursAt(s, pattern, i) {
      LiteralMatchesAtIffOccurs(s, pattern, i);
    }
    if Contains(s, pattern) {
      var i :| 0 <= i <= |s| - |pattern| && OccursAt(s, pattern, i);
      assert MatchesAt(s, Literal(pattern), i);
    }
  }

  // ----- numbers -----

  function DigitChar(d: nat): char
    requires d < 10
  {
    ('0' as int + d) as char
  }

  /** Decimal rendering of a natural number, as Python's `str(n)`. */
  function NatToString(n: nat): (r: string)
    ensures |r| > 0
    ensures forall k :: 0 <= k < |r| ==> '0' <= r[k] <= '9'
  {
    if n < 10 then [DigitChar(n)] else NatToString(n / 10) + [DigitChar(n % 10)]
  }
}
