/**
 * `Scanner(string:).scanHexInt32(&int)` as the decoder uses it: an optional
 * `0x`/`0X` prefix, then the leading run of hexadecimal digits read as an
 * unsigned 32-bit value, saturating at `UInt32.max` when the run is too long.
 * When there is no digit to read the scan fails and leaves the caller's
 * variable at its initial value, 0, which is also the value of the empty run.
 */
module HexScanner {
  import opened Ascii

  /** Swift's `UInt32`. */
  newtype UInt32 = x: int | 0 <= x < 0x1_0000_0000

  const UInt32Max: UInt32 := 0xFFFF_FFFF

  /** 16 to the power `n`: one more than the largest value of `n` hex digits. */
  function Pow16(n: nat): (p: nat)
    ensures p >= 1
  {
    if n == 0 then 1 else 16 * Pow16(n - 1)
  }

  lemma Pow16Monotonic(m: nat, n: nat)
    requires m <= n
    ensures Pow16(m) <= Pow16(n)
  {
    if m < n {
      Pow16Monotonic(m, n - 1);
    }
  }

  /** The powers the decoder's digit counts need: 3, 6 and 8 hex digits hold 12, 24 and 32 bits. */
  lemma Pow16Widths()
    ensures Pow16(3) == 0x1000
    ensures Pow16(6) == 0x100_0000
    ensures Pow16(8) == 0x1_0000_0000
  {
    assert Pow16(2) == 0x100;
    assert Pow16(4) == 0x1_0000;
    assert Pow16(7) == 0x1000_0000;
  }

  predicate AllHexDigits(s: string) {
    forall i :: 0 <= i < |s| ==> IsHexDigit(s[i])
  }

  /** Length of the leading run of hex digits of `s`. */
  function HexDigitRun(s: string): (n: nat)
    ensures n <= |s|
    ensures forall i :: 0 <= i < n ==> IsHexDigit(s[i])
    ensures n < |s| ==> !IsHexDigit(s[n])
  {
    if s == [] || !IsHexDigit(s[0]) then 0 else 1 + HexDigitRun(s[1..])
  }

  /** The number a string of hex digits spells, most significant digit first. */
  function HexValue(digits: string): (v: nat)
    requires AllHexDigits(digits)
    ensures v < Pow16(|digits|)
  {
    if digits == [] then 0
    else 16 * HexValue(digits[..|digits| - 1]) + DigitValue(digits[|digits| - 1])
  }

  predicate HasHexPrefix(s: string) {
    |s| >= 2 && s[0] == '0' && (s[1] == 'x' || s[1] == 'X')
  }

  /** What the scanner reads digits from: `s` after its `0x` or `0X` prefix, if any. */
  function ScanBody(s: string): string {
    if HasHexPrefix(s) then s[2..] else s
  }

  /** A string of hex digits holds no CR LF pair, so each of its characters is one `Character`. */
  lemma HexDigitsCount(h: string)
    requires AllHexDigits(h)
    ensures CharacterCount(h) == |h|
  {
    CharacterCountIsLength(h);
  }

  /** Each digit of the leading run is a `Character` of its own. */
  lemma {:induction false} HexDigitRunWithinCount(s: string)
    ensures HexDigitRun(s) <= CharacterCount(s)
  {
    if s != [] && IsHexDigit(s[0]) {
      HexDigitRunWithinCount(s[1..]);
    }
  }

  /** The two characters of a `0x` prefix are two `Character`s. */
  lemma HexPrefixCount(s: string)
    ensures HasHexPrefix(s) ==> CharacterCount(s) == 2 + CharacterCount(s[2..])
  {
    if HasHexPrefix(s) {
      assert s[1..][1..] == s[2..];
    }
  }

  /**
   * What `scanHexInt32` leaves in its `inout` argument when that starts at 0.
   * The value is below 16 to the number of `Character`s the decoder switches
   * on, so it never has more hex digits than that count.
   */
  function ScanHexInt32(s: string): (v: UInt32)
    ensures v as int < Pow16(CharacterCount(s))
  {
    var body := ScanBody(s);
    var run := body[..HexDigitRun(body)];
    var n := HexValue(run);
    HexDigitRunWithinCount(body);
    HexPrefixCount(s);
    Pow16Monotonic(|run|, CharacterCount(s));
    if n > UInt32Max as int then
      UInt32Max
    else
      n as UInt32
  }

  /** The leading run of `d + t` is `d` when `t` does not start with a hex digit. */
  lemma {:induction false} HexDigitRunOfConcat(d: string, t: string)
    requires AllHexDigits(d) && (t == [] || !IsHexDigit(t[0]))
    ensures HexDigitRun(d + t) == |d|
  {
    if d != [] {
      assert (d + t)[1..] == d[1..] + t;
      HexDigitRunOfConcat(d[1..], t);
    }
  }

  /**
   * After an optional `0x` or `0X`, the scan reads the digits up to the first
   * non-digit and keeps their value, saturating at `UInt32.max`.
   */
  lemma ScanLeadingRun(p: string, d: string, t: string)
    requires p == "" || p == "0x" || p == "0X"
    requires AllHexDigits(d) && (t == [] || !IsHexDigit(t[0]))
    requires p == "" ==> !HasHexPrefix(d + t)
    ensures ScanHexInt32(p + d + t) as int == if HexValue(d) > UInt32Max as int then UInt32Max as int else HexValue(d)
  {
    var s := p + d + t;
    if p == "" {
      assert s == d + t;
    } else {
      assert s[2..] == d + t;
    }
    ScanOfBody(s, d, t);
  }

  /** The scan of a string whose digits, after any prefix, are `d` up to a non-digit. */
  lemma ScanOfBody(s: string, d: string, t: string)
    requires ScanBody(s) == d + t
    requires AllHexDigits(d) && (t == [] || !IsHexDigit(t[0]))
    ensures ScanHexInt32(s) as int == if HexValue(d) > UInt32Max as int then UInt32Max as int else HexValue(d)
  {
    HexDigitRunOfConcat(d, t);
    assert (d + t)[..|d|] == d;
  }

  /** On at most eight hex digits and nothing else the scan reads the whole string, without saturating. */
  lemma ScanAllDigits(s: string)
    requires AllHexDigits(s) && |s| <= 8
    ensures ScanHexInt32(s) as int == HexValue(s)
  {
    assert !HasHexPrefix(s) by {
      if |s| >= 2 { assert IsHexDigit(s[1]); }
    }
    assert HexDigitRun(s) == |s|;
    assert s[..|s|] == s;
    Pow16Monotonic(|s|, 8);
    Pow16Widths();
  }

  /** A run of more than eight significant digits saturates at `UInt32.max`. */
  lemma ScanSaturates(s: string)
    requires AllHexDigits(s) && HexValue(s) > UInt32Max as int
    ensures ScanHexInt32(s) == UInt32Max
  {
    assert !HasHexPrefix(s) by {
      if |s| >= 2 { assert IsHexDigit(s[1]); }
    }
    assert HexDigitRun(s) == |s|;
    assert s[..|s|] == s;
  }

  /** Digit strings that agree up to case have the same value. */
  lemma {:induction false} HexValueSameUpToCase(d: string, d': string)
    requires AllHexDigits(d) && SameUpToCase(d, d')
    ensures AllHexDigits(d')
    ensures HexValue(d) == HexValue(d')
  {
    forall i | 0 <= i < |d| ensures IsHexDigit(d'[i]) && DigitValue(d[i]) == DigitValue(d'[i]) {
      SameLowerAgrees(d[i], d'[i]);
    }
    if d != [] {
      var n := |d| - 1;
      HexValueSameUpToCase(d[..n], d'[..n]);
    }
  }

  /** The leading digit runs of strings that agree up to case have the same length. */
  lemma HexDigitRunSameUpToCase(s: string, s': string)
    requires SameUpToCase(s, s')
    ensures HexDigitRun(s) == HexDigitRun(s')
  {
    forall i | 0 <= i < |s| ensures IsHexDigit(s[i]) <==> IsHexDigit(s'[i]) {
      SameLowerAgrees(s[i], s'[i]);
    }
  }

  /** The scan does not depend on the case of hex letters, nor of the `x` in the prefix. */
  lemma ScanSameUpToCase(s: string, s': string)
    requires SameUpToCase(s, s')
    ensures ScanHexInt32(s) == ScanHexInt32(s')
  {
    if |s| >= 2 {
      SameLowerAgrees(s[0], s'[0]);
      SameLowerAgrees(s[1], s'[1]);
    }
    var body := if HasHexPrefix(s) then s[2..] else s;
    var body' := if HasHexPrefix(s') then s'[2..] else s';
    assert SameUpToCase(body, body');
    HexDigitRunSameUpToCase(body, body');
    var n := HexDigitRun(body);
    assert SameUpToCase(body[..n], body'[..n]);
    HexValueSameUpToCase(body[..n], body'[..n]);
  }
}
