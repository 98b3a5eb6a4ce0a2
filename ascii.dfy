/**
 * Character classes used by the colour-string decoder, over ASCII:
 * letters and digits (the characters `trimmingCharacters` keeps at the ends),
 * hexadecimal digits and their values (what the hex scanner reads), and
 * ASCII case folding (hex letters are read without regard to case).
 */
module Ascii {

  /** A decimal digit or an ASCII letter: `CharacterSet.alphanumerics` on ASCII. */
  predicate IsAlphanumeric(c: char) {
    ('0' <= c <= '9') || ('a' <= c <= 'z') || ('A' <= c <= 'Z')
  }

  /** A hexadecimal digit in either case. */
  predicate IsHexDigit(c: char) {
    ('0' <= c <= '9') || ('a' <= c <= 'f') || ('A' <= c <= 'F')
  }

  /** The value of one hexadecimal digit: a nibble. */
  function DigitValue(c: char): (v: nat)
    requires IsHexDigit(c)
    ensures v < 16
    ensures v < 10 <==> '0' <= c <= '9'
  {
    if '0' <= c <= '9' then c as int - '0' as int
    else if 'a' <= c <= 'f' then c as int - 'a' as int + 10
    else c as int - 'A' as int + 10
  }

  /** The lower-case hexadecimal digit that stands for a nibble. */
  function HexDigitChar(n: nat): (c: char)
    requires n < 16
    ensures IsHexDigit(c) && DigitValue(c) == n
    ensures !('A' <= c <= 'Z')
  {
    if n < 10 then ('0' as int + n) as char else ('a' as int + n - 10) as char
  }

  /** ASCII lower-casing: upper-case letters map to lower case, everything else is kept. */
  function ToLower(c: char): char {
    if 'A' <= c <= 'Z' then (c as int - 'A' as int + 'a' as int) as char else c
  }

  /**
   * Lower-cases every character of `s`: no upper-case letter is left, and a
   * string that has none comes back unchanged.
   */
  function ToLowerString(s: string): (t: string)
    ensures forall i :: 0 <= i < |t| ==> !('A' <= t[i] <= 'Z')
    ensures (forall i :: 0 <= i < |s| ==> !('A' <= s[i] <= 'Z')) ==> t == s
  {
    seq(|s|, i requires 0 <= i < |s| => ToLower(s[i]))
  }

  /** `s` and `t` spell the same text up to the case of ASCII letters. */
  predicate SameUpToCase(s: string, t: string) {
    |s| == |t| && forall i :: 0 <= i < |s| ==> ToLower(s[i]) == ToLower(t[i])
  }

  /**
   * Two characters that agree after case folding are both alphanumeric or
   * both not, both hex digits of the same value or both not, and agree on
   * being `0` and on being the `x` of a `0x` prefix.
   */
  lemma SameLowerAgrees(c: char, d: char)
    requires ToLower(c) == ToLower(d)
    ensures IsAlphanumeric(c) <==> IsAlphanumeric(d)
    ensures IsHexDigit(c) <==> IsHexDigit(d)
    ensures IsHexDigit(c) ==> DigitValue(c) == DigitValue(d)
    ensures c == '0' <==> d == '0'
    ensures (c == 'x' || c == 'X') <==> (d == 'x' || d == 'X')
  {
  }

  /** Rendering a nibble and folding its case gives the same digit back. */
  lemma HexDigitCharOfValue(c: char)
    requires IsHexDigit(c)
    ensures HexDigitChar(DigitValue(c)) == ToLower(c)
  {
  }

  /**
   * `String.count` over ASCII: the number of `Character`s. Swift counts
   * grapheme clusters, and within ASCII the only cluster of two characters
   * is a carriage return followed by a line feed.
   */
  function CharacterCount(s: string): (n: nat)
    ensures n <= |s|
  {
    if |s| >= 2 && s[0] == '\r' && s[1] == '\n' then 1 + CharacterCount(s[2..])
    else if s == [] then 0
    else 1 + CharacterCount(s[1..])
  }

  /** No carriage return in `s` is directly followed by a line feed. */
  predicate NoCrLf(s: string) {
    forall i :: 0 <= i < |s| - 1 ==> !(s[i] == '\r' && s[i + 1] == '\n')
  }

  /** Every `Character` is one ASCII character exactly when there is no CR LF pair. */
  lemma {:induction false} CharacterCountIsLength(s: string)
    ensures CharacterCount(s) == |s| <==> NoCrLf(s)
  {
    if |s| >= 2 && s[0] == '\r' && s[1] == '\n' {
      assert !NoCrLf(s);
    } else if s != [] {
      var t := s[1..];
      CharacterCountIsLength(t);
      assert NoCrLf(s) <==> NoCrLf(t) by {
        if NoCrLf(t) {
          forall i | 0 <= i < |s| - 1 ensures !(s[i] == '\r' && s[i + 1] == '\n') {
            if i > 0 { assert s[i] == t[i - 1] && s[i + 1] == t[i]; }
          }
        }
        if NoCrLf(s) {
          forall i | 0 <= i < |t| - 1 ensures !(t[i] == '\r' && t[i + 1] == '\n') {
            assert t[i] == s[i + 1] && t[i + 1] == s[i + 2];
          }
        }
      }
    }
  }

  /** A single character and a CR LF pair are one `Character` each. */
  lemma CharacterCountUnits(c: char)
    ensures CharacterCount([c]) == 1
    ensures CharacterCount("\r\n") == 1
  {
  }

  /**
   * Counts add up over a concatenation unless a carriage return at the end
   * of the first part meets a line feed at the start of the second. With
   * `CharacterCountUnits` this fixes the count of every string: each CR LF
   * pair counts once and every other character once.
   */
  lemma {:induction false} CharacterCountOfConcat(a: string, b: string)
    requires a == [] || b == [] || !(a[|a| - 1] == '\r' && b[0] == '\n')
    ensures CharacterCount(a + b) == CharacterCount(a) + CharacterCount(b)
  {
    if a == [] {
      assert a + b == b;
    } else if |a| >= 2 && a[0] == '\r' && a[1] == '\n' {
      assert (a + b)[2..] == a[2..] + b;
      CharacterCountOfConcat(a[2..], b);
    } else {
      assert (a + b)[1..] == a[1..] + b;
      CharacterCountOfConcat(a[1..], b);
    }
  }

  /** Case folding leaves carriage returns and line feeds alone, so it keeps the count. */
  lemma {:induction false} CharacterCountSameUpToCase(s: string, t: string)
    requires SameUpToCase(s, t)
    ensures CharacterCount(s) == CharacterCount(t)
  {
    if s != [] {
      assert ToLower(s[0]) == ToLower(t[0]);
      if |s| >= 2 {
        assert ToLower(s[1]) == ToLower(t[1]);
        assert SameUpToCase(s[2..], t[2..]);
        CharacterCountSameUpToCase(s[2..], t[2..]);
      }
      assert SameUpToCase(s[1..], t[1..]);
      CharacterCountSameUpToCase(s[1..], t[1..]);
    }
  }

  /** Lower-casing a string changes it only up to case. */
  lemma ToLowerStringSameUpToCase(s: string)
    ensures SameUpToCase(s, ToLowerString(s))
  {
  }
}
