/**
 * `String.hexColor`: a colour written as hex digits, optionally padded with
 * punctuation such as a leading `#`, decoded into 8-bit alpha, red, green and
 * blue channels. Three digits are 12-bit RGB (each nibble stretched by 17),
 * six are 24-bit RGB, eight are 32-bit ARGB; any other count of `Character`s
 * gives the fully transparent colour. The channels are those the decoder
 * divides by 255 to build its `UIColor`.
 */
module HexColorDecoder {
  import opened Ascii
  import opened Trimming
  import opened HexScanner

  /** The four channels of a decoded colour, each on the 0..255 scale. */
  datatype Argb = Argb(a: nat, r: nat, g: nat, b: nat)

  /** `UIColor.clear`: fully transparent black. */
  const Clear := Argb(0, 0, 0, 0)

  predicate ChannelsAreBytes(c: Argb) {
    c.a < 256 && c.r < 256 && c.g < 256 && c.b < 256
  }

  /**
   * The `switch` on the digit count, given the scanned value `v`. Shifts and
   * masks on the unsigned value are written as division and remainder:
   * `v >> k` is `v / 2^k` and `v & (2^k - 1)` is `v % 2^k`. The arithmetic
   * stays in `UInt32`. No step can trap on overflow for any `UInt32` value
   * (`NoOverflowInSwitch`); the six- and eight-digit cases only shift and mask. What keeps every channel a byte is the scanner's
   * bound: the value has no more hex digits than the count.
   */
  function Channels(count: nat, v: UInt32): (c: Argb)
    requires v as int < Pow16(count)
    ensures ChannelsAreBytes(c)
  {
    Pow16Widths();
    if count == 3 then
      Argb(255, ((v / 0x100) * 17) as nat, ((v / 0x10 % 0x10) * 17) as nat, ((v % 0x10) * 17) as nat)
    else if count == 6 then
      Argb(255, (v / 0x1_0000) as nat, (v / 0x100 % 0x100) as nat, (v % 0x100) as nat)
    else if count == 8 then
      Argb((v / 0x100_0000) as nat, (v / 0x1_0000 % 0x100) as nat, (v / 0x100 % 0x100) as nat, (v % 0x100) as nat)
    else
      Clear
  }

  /**
   * The three products by 17 of the three-digit case fit in `UInt32` whatever
   * the scanned value. Only `(v >> 8) * 17` can be large, at most
   * `0xFF_FFFF * 17`; the other two multiply a nibble and are at most 255.
   */
  lemma NoOverflowInSwitch(v: UInt32)
    ensures (v as int / 0x100) * 17 <= 0x10FF_FFEF < 0x1_0000_0000
    ensures (v as int / 0x10 % 0x10) * 17 < 0x1_0000_0000
    ensures (v as int % 0x10) * 17 < 0x1_0000_0000
  {
    var q := v as int / 0x100;
    assert q <= 0xFF_FFFF;
    assert q * 17 <= 0xFF_FFFF * 17;
  }

  /** The decoder: trim, scan, then dispatch on the number of `Character`s left. */
  function HexColor(s: string): (c: Argb)
    ensures ChannelsAreBytes(c)
  {
    var hex := Trim(s);
    Channels(CharacterCount(hex), ScanHexInt32(hex))
  }

  /** Right shifts and masks by whole bytes undo a byte-wise composition. */
  lemma DivMod8(q: int, r: int)
    requires 0 <= r < 0x100
    ensures (q * 0x100 + r) / 0x100 == q && (q * 0x100 + r) % 0x100 == r
  {
  }

  lemma DivMod16(q: int, r: int)
    requires 0 <= r < 0x1_0000
    ensures (q * 0x1_0000 + r) / 0x1_0000 == q
  {
  }

  lemma DivMod24(q: int, r: int)
    requires 0 <= r < 0x100_0000
    ensures (q * 0x100_0000 + r) / 0x100_0000 == q
  {
  }

  /** Case 3: `>> 8`, `>> 4 & 0xF` and `& 0xF` pick the three nibbles of a 12-bit value, each then times 17. */
  lemma ChannelsOfNibbles(v: UInt32, x: nat, y: nat, z: nat)
    requires x < 16 && y < 16 && z < 16
    requires v as int == (x * 16 + y) * 16 + z
    ensures v as int < Pow16(3)
    ensures Channels(3, v) == Argb(255, x * 17, y * 17, z * 17)
  {
    Pow16Widths();
    DivMod8(x, y * 16 + z);
    assert v as int == (x * 16 + y) * 16 + z;
    assert (v / 0x10) as int == x * 16 + y;
  }

  /** Case 6: `>> 16`, `>> 8 & 0xFF` and `& 0xFF` pick the three bytes of a 24-bit value. */
  lemma ChannelsOfRgb(v: UInt32, x: nat, y: nat, z: nat)
    requires x < 256 && y < 256 && z < 256
    requires v as int == x * 0x1_0000 + y * 0x100 + z
    ensures v as int < Pow16(6)
    ensures Channels(6, v) == Argb(255, x, y, z)
  {
    Pow16Widths();
    DivMod16(x, y * 0x100 + z);
    DivMod8(x * 0x100 + y, z);
    DivMod8(x, y);
  }

  /** Case 8: `>> 24`, `>> 16 & 0xFF`, `>> 8 & 0xFF` and `& 0xFF` pick the four bytes of a 32-bit value. */
  lemma ChannelsOfArgb(v: UInt32, w: nat, x: nat, y: nat, z: nat)
    requires w < 256 && x < 256 && y < 256 && z < 256
    requires v as int == w * 0x100_0000 + x * 0x1_0000 + y * 0x100 + z
    ensures v as int < Pow16(8)
    ensures Channels(8, v) == Argb(w, x, y, z)
  {
    Pow16Widths();
    DivMod24(w, x * 0x1_0000 + y * 0x100 + z);
    DivMod16(w * 0x100 + x, y * 0x100 + z);
    DivMod8(w, x);
    DivMod8(w * 0x1_0000 + x * 0x100 + y, z);
    DivMod8(w * 0x100 + x, y);
  }

  /** The byte two hex digits spell, high nibble first. */
  function ByteValue(hi: char, lo: char): (n: nat)
    requires IsHexDigit(hi) && IsHexDigit(lo)
    ensures n < 256
  {
    16 * DigitValue(hi) + DigitValue(lo)
  }

  /** The last two digits of a digit string form its lowest byte. */
  lemma HexValueLastByte(d: string)
    requires |d| >= 2 && AllHexDigits(d)
    ensures AllHexDigits(d[..|d| - 2])
    ensures HexValue(d) == 256 * HexValue(d[..|d| - 2]) + ByteValue(d[|d| - 2], d[|d| - 1])
  {
    var n := |d|;
    assert d[..n - 1][..n - 2] == d[..n - 2];
  }

  /** Six digits spell three bytes, most significant first. */
  lemma HexValueSix(h: string)
    requires |h| == 6 && AllHexDigits(h)
    ensures HexValue(h) == ByteValue(h[0], h[1]) * 0x1_0000 + ByteValue(h[2], h[3]) * 0x100 + ByteValue(h[4], h[5])
  {
    HexValueLastByte(h);
    var h4 := h[..4];
    HexValueLastByte(h4);
    assert h4[..2] == h[..2];
    HexValueLastByte(h[..2]);
  }

  /** Eight digits spell four bytes, most significant first. */
  lemma HexValueEight(h: string)
    requires |h| == 8 && AllHexDigits(h)
    ensures HexValue(h) == ByteValue(h[0], h[1]) * 0x100_0000 + ByteValue(h[2], h[3]) * 0x1_0000
      + ByteValue(h[4], h[5]) * 0x100 + ByteValue(h[6], h[7])
  {
    HexValueLastByte(h);
    HexValueSix(h[..6]);
  }

  /** Three digits spell three nibbles, most significant first. */
  lemma HexValueThree(h: string)
    requires |h| == 3 && AllHexDigits(h)
    ensures HexValue(h) == (DigitValue(h[0]) * 16 + DigitValue(h[1])) * 16 + DigitValue(h[2])
  {
    HexValueLastByte(h);
    assert h[..1][..0] == [];
  }

  /**
   * The transparent colour comes out exactly for `Character` counts other
   * than 3, 6 and 8, and for eight `Character`s that scan to zero.
   */
  lemma ClearExactly(s: string)
    ensures var n := CharacterCount(Trim(s));
      HexColor(s) == Clear <==>
      (n != 3 && n != 6 && n != 8) || (n == 8 && ScanHexInt32(Trim(s)) == 0)
  {
    var hex := Trim(s);
    var v := ScanHexInt32(hex) as int;
    if CharacterCount(hex) == 8 && HexColor(s) == Clear {
      assert v / 0x100_0000 == 0 && v / 0x1_0000 % 0x100 == 0 && v / 0x100 % 0x100 == 0 && v % 0x100 == 0;
      assert v < 0x100_0000;
      assert v < 0x1_0000;
      assert v < 0x100;
    }
  }

  /** Three digits: opaque, and each channel is its nibble times 17 (`f` gives 255, `0` gives 0). */
  lemma ThreeDigits(s: string)
    requires |Trim(s)| == 3 && AllHexDigits(Trim(s))
    ensures var h := Trim(s);
      HexColor(s) == Argb(255, DigitValue(h[0]) * 17, DigitValue(h[1]) * 17, DigitValue(h[2]) * 17)
  {
    var h := Trim(s);
    HexDigitsCount(h);
    ScanAllDigits(h);
    HexValueThree(h);
    ChannelsOfNibbles(ScanHexInt32(h), DigitValue(h[0]), DigitValue(h[1]), DigitValue(h[2]));
  }

  /** Six digits: opaque, and red, green, blue are the high, middle and low bytes. */
  lemma SixDigits(s: string)
    requires |Trim(s)| == 6 && AllHexDigits(Trim(s))
    ensures var h := Trim(s);
      HexColor(s) == Argb(255, ByteValue(h[0], h[1]), ByteValue(h[2], h[3]), ByteValue(h[4], h[5]))
  {
    var h := Trim(s);
    HexDigitsCount(h);
    ScanAllDigits(h);
    HexValueSix(h);
    ChannelsOfRgb(ScanHexInt32(h), ByteValue(h[0], h[1]), ByteValue(h[2], h[3]), ByteValue(h[4], h[5]));
  }

  /** Eight digits: alpha, red, green, blue are the four bytes from the most significant down. */
  lemma EightDigits(s: string)
    requires |Trim(s)| == 8 && AllHexDigits(Trim(s))
    ensures var h := Trim(s);
      HexColor(s) == Argb(ByteValue(h[0], h[1]), ByteValue(h[2], h[3]), ByteValue(h[4], h[5]), ByteValue(h[6], h[7]))
  {
    var h := Trim(s);
    HexDigitsCount(h);
    ScanAllDigits(h);
    HexValueEight(h);
    ChannelsOfArgb(ScanHexInt32(h), ByteValue(h[0], h[1]), ByteValue(h[2], h[3]), ByteValue(h[4], h[5]), ByteValue(h[6], h[7]));
  }

  /** The short form doubles each digit: `abc` decodes like `aabbcc`. */
  lemma ShortFormDoublesDigits(x: char, y: char, z: char)
    requires IsHexDigit(x) && IsHexDigit(y) && IsHexDigit(z)
    ensures HexColor([x, y, z]) == HexColor([x, x, y, y, z, z])
  {
    TrimFixedPoint([x, y, z]);
    TrimFixedPoint([x, x, y, y, z, z]);
    ThreeDigits([x, y, z]);
    SixDigits([x, x, y, y, z, z]);
  }

  /** Non-alphanumeric padding at either end is ignored: `#f44336` decodes like `f44336`. */
  lemma PaddingIgnored(p: string, s: string, q: string)
    requires NoAlphanumerics(p) && NoAlphanumerics(q)
    ensures HexColor(p + s + q) == HexColor(s)
  {
    TrimIgnoresPadding(p, s, q);
  }

  /** Strings that agree up to the case of their letters decode alike. */
  lemma CaseInsensitive(s: string, s': string)
    requires SameUpToCase(s, s')
    ensures HexColor(s) == HexColor(s')
  {
    TrimSameUpToCase(s, s');
    CharacterCountSameUpToCase(Trim(s), Trim(s'));
    ScanSameUpToCase(Trim(s), Trim(s'));
  }

  /** In particular, lower-casing the input does not change the colour. */
  lemma LowerCaseDecodesAlike(s: string)
    ensures HexColor(ToLowerString(s)) == HexColor(s)
  {
    ToLowerStringSameUpToCase(s);
    CaseInsensitive(s, ToLowerString(s));
  }

  /** A byte as two lower-case hex digits. */
  function ByteHex(n: nat): (h: string)
    requires n < 256
    ensures |h| == 2 && IsHexDigit(h[0]) && IsHexDigit(h[1])
    ensures ByteValue(h[0], h[1]) == n
  {
    [HexDigitChar(n / 16), HexDigitChar(n % 16)]
  }

  /** A colour written out as six hex digits, `rrggbb`. */
  function RgbHex(r: nat, g: nat, b: nat): (h: string)
    requires r < 256 && g < 256 && b < 256
  {
    ByteHex(r) + ByteHex(g) + ByteHex(b)
  }

  /** A colour written out as eight hex digits, `aarrggbb`. */
  function ArgbHex(a: nat, r: nat, g: nat, b: nat): (h: string)
    requires a < 256 && r < 256 && g < 256 && b < 256
  {
    ByteHex(a) + ByteHex(r) + ByteHex(g) + ByteHex(b)
  }

  /** A bare six-digit string decodes to its three bytes, opaque. */
  lemma DecodeSixDigits(h: string)
    requires |h| == 6 && AllHexDigits(h)
    ensures HexColor(h) == Argb(255, ByteValue(h[0], h[1]), ByteValue(h[2], h[3]), ByteValue(h[4], h[5]))
  {
    TrimFixedPoint(h);
    SixDigits(h);
  }

  /** Writing a byte triple as six digits and decoding it gives it back, opaque. */
  lemma RgbRoundTrip(r: nat, g: nat, b: nat)
    requires r < 256 && g < 256 && b < 256
    ensures HexColor(RgbHex(r, g, b)) == Argb(255, r, g, b)
  {
    var h := RgbHex(r, g, b);
    assert h[0] == ByteHex(r)[0] && h[1] == ByteHex(r)[1];
    assert h[2] == ByteHex(g)[0] && h[3] == ByteHex(g)[1];
    assert h[4] == ByteHex(b)[0] && h[5] == ByteHex(b)[1];
    TrimFixedPoint(h);
    SixDigits(h);
  }

  /** Writing four bytes as eight digits and decoding them gives them back. */
  lemma ArgbRoundTrip(a: nat, r: nat, g: nat, b: nat)
    requires a < 256 && r < 256 && g < 256 && b < 256
    ensures HexColor(ArgbHex(a, r, g, b)) == Argb(a, r, g, b)
  {
    var h := ArgbHex(a, r, g, b);
    assert h[0] == ByteHex(a)[0] && h[1] == ByteHex(a)[1];
    assert h[2] == ByteHex(r)[0] && h[3] == ByteHex(r)[1];
    assert h[4] == ByteHex(g)[0] && h[5] == ByteHex(g)[1];
    assert h[6] == ByteHex(b)[0] && h[7] == ByteHex(b)[1];
    TrimFixedPoint(h);
    EightDigits(h);
  }

  /** Writing out the byte two digits spell gives the digits back, lower-cased. */
  lemma ByteHexOfDigits(hi: char, lo: char)
    requires IsHexDigit(hi) && IsHexDigit(lo)
    ensures ByteHex(ByteValue(hi, lo)) == [ToLower(hi), ToLower(lo)]
  {
    var x, y := DigitValue(hi), DigitValue(lo);
    assert (16 * x + y) / 16 == x && (16 * x + y) % 16 == y;
    HexDigitCharOfValue(hi);
    HexDigitCharOfValue(lo);
  }

  /** Six digits are the lower-case rendering of the three bytes they spell, up to case. */
  lemma RgbHexOfDigits(h: string)
    requires |h| == 6 && AllHexDigits(h)
    ensures RgbHex(ByteValue(h[0], h[1]), ByteValue(h[2], h[3]), ByteValue(h[4], h[5])) == ToLowerString(h)
  {
    ByteHexOfDigits(h[0], h[1]);
    ByteHexOfDigits(h[2], h[3]);
    ByteHexOfDigits(h[4], h[5]);
    var l := ToLowerString(h);
    assert l == [l[0], l[1]] + [l[2], l[3]] + [l[4], l[5]];
  }

  /** Decoding six digits and writing the channels out again gives the digits back, lower-cased. */
  lemma RgbHexOfDecoded(h: string)
    requires |h| == 6 && AllHexDigits(h)
    ensures var c := HexColor(h); RgbHex(c.r, c.g, c.b) == ToLowerString(h)
  {
    DecodeSixDigits(h);
    RgbHexOfDigits(h);
  }

  /** A palette colour behind a `#` decodes to its three bytes. */
  lemma ExamplePadded()
    ensures HexColor("#f44336") == Argb(255, 244, 67, 54)
  {
    var s := "#f44336";
    assert IsTrimRange(s, 1, 7);
    TrimOfRange(s, 1, 7);
    assert s[1..7] == "f44336";
    SixDigits(s);
  }

  /** The short form `fff` is opaque white. */
  lemma ExampleShortWhite()
    ensures HexColor("fff") == Argb(255, 255, 255, 255)
  {
    TrimFixedPoint("fff");
    ThreeDigits("fff");
  }

  /** The short form `abc` decodes like `aabbcc`. */
  lemma ExampleShortForm()
    ensures HexColor("abc") == HexColor("aabbcc")
  {
    ShortFormDoublesDigits('a', 'b', 'c');
  }

  /** Eight digits carry alpha first: `80FF0000` is half-transparent red. */
  lemma ExampleArgb()
    ensures HexColor("80FF0000") == Argb(128, 255, 0, 0)
  {
    TrimFixedPoint("80FF0000");
    EightDigits("80FF0000");
  }

  /** `0x1` is three `Character`s, and the scanner reads it as the number 1 after its prefix. */
  lemma ExampleHexPrefix()
    ensures CharacterCount(Trim("0x1")) == 3
    ensures ScanHexInt32("0x1") == 1
    ensures HexColor("0x1") == Argb(255, 0, 0, 17)
  {
    TrimFixedPoint("0x1");
    CharacterCountIsLength("0x1");
    ScanLeadingRun("0x", "1", "");
    assert "0x" + "1" + "" == "0x1";
  }

  /**
   * A carriage return and line feed inside the digits are one `Character`:
   * `1\r\n2` counts as three, the scan stops at the carriage return, and the
   * result is the 12-bit colour 0x001.
   */
  lemma ExampleCrLf()
    ensures CharacterCount(Trim("1\r\n2")) == 3
    ensures ScanHexInt32(Trim("1\r\n2")) == 1
    ensures HexColor("1\r\n2") == Argb(255, 0, 0, 17)
  {
    var s := "1\r\n2";
    TrimFixedPoint(s);
    assert s[1..][2..] == "2";
    ScanLeadingRun("", "1", "\r\n2");
    assert "" + "1" + "\r\n2" == s;
  }

  /** Five digits is not a colour: the result is transparent. */
  lemma ExampleBadLength()
    ensures HexColor("12345") == Clear
  {
    TrimFixedPoint("12345");
    HexDigitsCount("12345");
  }

  /** Six characters that are not hex digits are not rejected: they scan to 0 and give opaque black. */
  lemma ExampleNoDigits()
    ensures HexColor("zzzzzz") == Argb(255, 0, 0, 0)
  {
    TrimFixedPoint("zzzzzz");
    CharacterCountIsLength("zzzzzz");
    assert HexDigitRun("zzzzzz") == 0;
    assert "zzzzzz"[..0] == [];
  }
}
