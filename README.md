# Hex colour decoding in the cube-layout demo

The demo app CollectionLayoutTest shows a grid of coloured cells that page past
each other with a cube-rotation effect. Its layout and animation code is toolkit
glue over floating-point geometry. The logic this project models is how a cell
gets its colour:

- `String.hexColor` turns a colour string such as `"#f44336"` into alpha, red,
  green and blue channels. It trims everything that is not a letter or digit
  off both ends. It scans the rest as an unsigned 32-bit hex number. Then it
  switches on the number of `Character`s left: 3 means 12-bit RGB (each nibble
  times 17), 6 means 24-bit RGB, 8 means 32-bit ARGB, and any other count
  gives the transparent colour.
- The collection view controller keeps a fixed table of ten
  (hex colour, image name) pairs. It colours cell `row` with entry
  `row % table.count`.

Modules:

- `Ascii` (`ascii.dfy`): letters, digits, hex digits and their values, ASCII
  lower-casing, and "equal up to case".
- `Trimming` (`trimming.dfy`): `trimmingCharacters(in: alphanumerics.inverted)`.
- `HexScanner` (`scanner.dfy`): `Scanner.scanHexInt32`, over a `UInt32` newtype.
- `HexColorDecoder` (`hexcolor.dfy`): `String.hexColor`. The result is the
  `Argb` datatype of the four channels on the 0..255 scale. `Clear` stands for
  `UIColor.clear`.
- `Palette` (`palette.dfy`): the colour table, Swift's truncating `%`, and the
  per-row lookup.

The shifts and masks of the decoder are written as division and remainder on
the unsigned scanned value: `v >> k` is `v / 2^k` and `v & (2^k - 1)` is
`v % 2^k`. The arithmetic is kept in `UInt32`. No step of the switch can trap
on overflow, whatever the scanned value. The three-digit case multiplies three
values by 17. Only `(v >> 8) * 17` can be large, and it is at most
`0xFF_FFFF * 17`. The other two multiply a nibble by 17 and are at most 255
(`HexColorDecoder.NoOverflowInSwitch`). The six- and eight-digit cases only
shift and mask.
What makes every channel a byte is the scanner's bound: the value has no more
hex digits than the count the decoder switches on (`HexScanner.ScanHexInt32`).

The decoder does not reject strings that are not colours. A trimmed
count other than 3, 6 or 8 gives the transparent colour. So does a count of 8
that scans to 0, such as `00000000` or `zzzzzzzz` (`HexColorDecoder.ClearExactly`).
Every other string gives a colour other than `Clear`, even when it holds no
hex digit at all. For example, six characters that are not hex digits scan to
0 and give opaque black (`HexColorDecoder.ExampleNoDigits`).

The count the decoder switches on is Swift's `String.count`, a count of
`Character`s, which are grapheme clusters. Within ASCII the only cluster of more
than one character is a carriage return followed by a line feed.
`Ascii.CharacterCount` counts such a pair once, so `1\r\n2` counts as three
and decodes as a 12-bit colour (`HexColorDecoder.ExampleCrLf`).

## Model

| member | source | states |
|---|---|---|
| `Ascii.IsAlphanumeric` | CollectionLayoutTest/ViewController.swift:163 | the characters the trim keeps at the ends: `CharacterSet.alphanumerics` restricted to ASCII, that is digits and letters of either case |
| `Ascii.CharacterCount` | CollectionLayoutTest/ViewController.swift:167 | `hex.count` over ASCII: never more than the number of characters |
| `Ascii.CharacterCountUnits` | CollectionLayoutTest/ViewController.swift:167 | a single character counts one, and so does a CR LF pair |
| `Ascii.CharacterCountOfConcat` | CollectionLayoutTest/ViewController.swift:167 | counts add up over a concatenation unless a CR ending the first part meets an LF starting the second; with the units, each CR LF pair counts once and every other character once |
| `Ascii.CharacterCountIsLength` | CollectionLayoutTest/ViewController.swift:167 | the count is the number of characters if and only if there is no CR LF pair |
| `Ascii.CharacterCountSameUpToCase` | CollectionLayoutTest/ViewController.swift:163-167 | strings equal up to case have the same count |
| `Ascii.IsHexDigit` | CollectionLayoutTest/ViewController.swift:165 | the digits the scanner reads: `0`-`9`, `a`-`f` and `A`-`F` |
| `Ascii.DigitValue` | CollectionLayoutTest/ViewController.swift:165 | a hex digit's value is a nibble, below 10 exactly for decimal digits |
| `Ascii.SameLowerAgrees` | CollectionLayoutTest/ViewController.swift:163-165 | characters equal after lower-casing agree on being alphanumeric, on being hex digits and their value, and on being the `0` and `x` of a prefix |
| `Ascii.HexDigitCharOfValue` | CollectionLayoutTest/ViewController.swift:165 | rendering a digit's value as a lower-case digit gives the digit lower-cased |
| `Ascii.ToLowerString` | CollectionLayoutTest/ViewController.swift:165 | lower-casing leaves no upper-case letter, and leaves a string without one unchanged |
| `Trimming.TextStart` | CollectionLayoutTest/ViewController.swift:163 | index of the first letter or digit: everything before it is padding |
| `Trimming.TextEnd` | CollectionLayoutTest/ViewController.swift:163 | index just past the last letter or digit: everything after it is padding |
| `Trimming.Trim` | CollectionLayoutTest/ViewController.swift:163 | the result is a contiguous slice of the input, only non-alphanumerics lie outside it, and it is empty or starts and ends with a letter or digit |
| `Trimming.TrimOfRange` | CollectionLayoutTest/ViewController.swift:163 | any slice with the properties above is the trim: the trim is uniquely determined |
| `Trimming.TrimRangeAfterPrefix` | CollectionLayoutTest/ViewController.swift:163 | padding in front shifts the trimmed slice and keeps its contents |
| `Trimming.TrimRangeBeforeSuffix` | CollectionLayoutTest/ViewController.swift:163 | padding behind keeps the trimmed slice and its contents |
| `Trimming.TrimIgnoresPrefix` | CollectionLayoutTest/ViewController.swift:163 | non-alphanumeric padding in front does not change the trim |
| `Trimming.TrimIgnoresSuffix` | CollectionLayoutTest/ViewController.swift:163 | non-alphanumeric padding behind does not change the trim |
| `Trimming.TrimIgnoresPadding` | CollectionLayoutTest/ViewController.swift:163 | non-alphanumeric padding at both ends does not change the trim |
| `Trimming.TrimIdempotent` | CollectionLayoutTest/ViewController.swift:163 | trimming twice equals trimming once |
| `Trimming.TrimFixedPoint` | CollectionLayoutTest/ViewController.swift:163 | the trim leaves a string unchanged if and only if it is empty or starts and ends with a letter or digit |
| `Trimming.TrimSameUpToCase` | CollectionLayoutTest/ViewController.swift:163 | strings equal up to case trim to strings equal up to case |
| `HexScanner.Pow16Monotonic` | CollectionLayoutTest/ViewController.swift:165 | more digits never make a smaller bound |
| `HexScanner.Pow16Widths` | CollectionLayoutTest/ViewController.swift:166-173 | 3, 6 and 8 hex digits hold 12, 24 and 32 bits |
| `HexScanner.HexDigitRun` | CollectionLayoutTest/ViewController.swift:165 | the leading run of hex digits: all digits up to its end, and a non-digit or the end of the string after it |
| `HexScanner.HexValue` | CollectionLayoutTest/ViewController.swift:165 | the value of n hex digits is below 16^n |
| `HexScanner.HasHexPrefix` | CollectionLayoutTest/ViewController.swift:165 | the optional `0x` or `0X` the scanner skips before the digits |
| `HexScanner.ScanBody` | CollectionLayoutTest/ViewController.swift:165 | the text the scanner reads digits from: what follows a `0x` or `0X` prefix, or the whole string without one |
| `HexScanner.UInt32` | CollectionLayoutTest/ViewController.swift:164 | Swift's `UInt32`: integers from 0 to 2^32 - 1 |
| `HexScanner.UInt32Max` | CollectionLayoutTest/ViewController.swift:165 | `UInt32.max`, the value the scanner saturates at |
| `HexScanner.HexDigitsCount` | CollectionLayoutTest/ViewController.swift:165-167 | a string of hex digits counts one per digit |
| `HexScanner.HexDigitRunWithinCount` | CollectionLayoutTest/ViewController.swift:165-167 | the leading run of digits is never longer than the count |
| `HexScanner.HexPrefixCount` | CollectionLayoutTest/ViewController.swift:165-167 | a `0x` prefix adds two to the count |
| `HexScanner.HexDigitRunOfConcat` | CollectionLayoutTest/ViewController.swift:165 | the leading run of digits followed by a non-digit is exactly those digits |
| `HexScanner.ScanOfBody` | CollectionLayoutTest/ViewController.swift:165 | when the text after any prefix is digits up to a non-digit, the scan is their value, saturated at `UInt32.max` |
| `HexScanner.ScanLeadingRun` | CollectionLayoutTest/ViewController.swift:165 | for an empty, `0x` or `0X` prefix, then hex digits, then a non-digit or the end, the scan is the digits' value, saturated at `UInt32.max` |
| `HexScanner.ScanHexInt32` | CollectionLayoutTest/ViewController.swift:164-165 | the scanned value is below 16 to the string's count, saturation included, so it never holds more digits than the decoder switches on |
| `HexScanner.ScanAllDigits` | CollectionLayoutTest/ViewController.swift:164-165 | up to eight hex digits scan to their exact value: no overflow is possible |
| `HexScanner.ScanSaturates` | CollectionLayoutTest/ViewController.swift:165 | a digit string worth more than `UInt32.max` scans to `UInt32.max` |
| `HexScanner.HexValueSameUpToCase` | CollectionLayoutTest/ViewController.swift:165 | digit strings equal up to case have the same value |
| `HexScanner.HexDigitRunSameUpToCase` | CollectionLayoutTest/ViewController.swift:165 | strings equal up to case have digit runs of the same length |
| `HexScanner.ScanSameUpToCase` | CollectionLayoutTest/ViewController.swift:164-165 | the scan does not depend on the case of letters, the `x` of the prefix included |
| `HexColorDecoder.Clear` | CollectionLayoutTest/ViewController.swift:174-175 | `UIColor.clear`: all four channels zero |
| `HexColorDecoder.NoOverflowInSwitch` | CollectionLayoutTest/ViewController.swift:168-173 | for every `UInt32` value, `(v >> 8) * 17` and the other nibble products fit in `UInt32`, so no branch of the switch traps |
| `HexColorDecoder.Channels` | CollectionLayoutTest/ViewController.swift:166-176 | when the scanned value has no more digits than the count, every branch of the switch yields channels in 0..255 and no `UInt32` step overflows |
| `HexColorDecoder.HexColor` | CollectionLayoutTest/ViewController.swift:161-176 | for every input string, all four channels lie in 0..255 |
| `HexColorDecoder.ByteValue` | CollectionLayoutTest/ViewController.swift:170-173 | two hex digits spell a byte |
| `HexColorDecoder.ChannelsOfNibbles` | CollectionLayoutTest/ViewController.swift:168-169 | on a 12-bit value, case 3 is opaque and each channel is its nibble times 17 |
| `HexColorDecoder.ChannelsOfRgb` | CollectionLayoutTest/ViewController.swift:170-171 | on a 24-bit value, case 6 is opaque and takes the high, middle and low bytes |
| `HexColorDecoder.ChannelsOfArgb` | CollectionLayoutTest/ViewController.swift:172-173 | on a 32-bit value, case 8 takes the four bytes as alpha, red, green, blue |
| `HexColorDecoder.HexValueLastByte` | CollectionLayoutTest/ViewController.swift:165 | the last two digits form the lowest byte of the value |
| `HexColorDecoder.HexValueThree` | CollectionLayoutTest/ViewController.swift:168-169 | three digits spell three nibbles, most significant first |
| `HexColorDecoder.HexValueSix` | CollectionLayoutTest/ViewController.swift:170-171 | six digits spell three bytes, most significant first |
| `HexColorDecoder.HexValueEight` | CollectionLayoutTest/ViewController.swift:172-173 | eight digits spell four bytes, most significant first |
| `HexColorDecoder.ClearExactly` | CollectionLayoutTest/ViewController.swift:167-175 | the result is `Clear`, all four channels zero, if and only if the trimmed `Character` count is not 3, 6 or 8, or it is 8 and the scan is 0 |
| `HexColorDecoder.ThreeDigits` | CollectionLayoutTest/ViewController.swift:168-169 | three trimmed hex digits give alpha 255 and each channel its digit's value times 17 |
| `HexColorDecoder.SixDigits` | CollectionLayoutTest/ViewController.swift:170-171 | six trimmed hex digits give alpha 255 and red, green, blue from the digit pairs in order |
| `HexColorDecoder.DecodeSixDigits` | CollectionLayoutTest/ViewController.swift:170-171 | a bare six-digit string decodes to its three bytes, opaque |
| `HexColorDecoder.EightDigits` | CollectionLayoutTest/ViewController.swift:172-173 | eight trimmed hex digits give alpha, red, green, blue from the digit pairs in order |
| `HexColorDecoder.ShortFormDoublesDigits` | CollectionLayoutTest/ViewController.swift:168-171 | `xyz` decodes like `xxyyzz` |
| `HexColorDecoder.PaddingIgnored` | CollectionLayoutTest/ViewController.swift:163-165 | non-alphanumeric padding at either end does not change the colour |
| `HexColorDecoder.CaseInsensitive` | CollectionLayoutTest/ViewController.swift:163-165 | strings equal up to case decode to the same colour |
| `HexColorDecoder.LowerCaseDecodesAlike` | CollectionLayoutTest/ViewController.swift:163-165 | lower-casing the input does not change the colour |
| `HexColorDecoder.ByteHex` | CollectionLayoutTest/ViewController.swift:170-171 | a byte rendered as two lower-case hex digits spells that byte |
| `HexColorDecoder.RgbRoundTrip` | CollectionLayoutTest/ViewController.swift:170-171 | rendering r, g, b as six digits and decoding gives (255, r, g, b) |
| `HexColorDecoder.ArgbRoundTrip` | CollectionLayoutTest/ViewController.swift:172-173 | rendering a, r, g, b as eight digits and decoding gives (a, r, g, b) |
| `HexColorDecoder.ByteHexOfDigits` | CollectionLayoutTest/ViewController.swift:170-171 | rendering the byte two digits spell gives those digits lower-cased |
| `HexColorDecoder.RgbHexOfDigits` | CollectionLayoutTest/ViewController.swift:170-171 | six digits are the rendering of their three bytes, up to case |
| `HexColorDecoder.RgbHexOfDecoded` | CollectionLayoutTest/ViewController.swift:170-171 | decoding six digits and rendering the channels gives the digits back, lower-cased |
| `HexColorDecoder.ExamplePadded` | CollectionLayoutTest/ViewController.swift:163-171 | `#f44336` decodes to (255, 244, 67, 54) |
| `HexColorDecoder.ExampleShortWhite` | CollectionLayoutTest/ViewController.swift:168-169 | `fff` decodes to opaque white |
| `HexColorDecoder.ExampleShortForm` | CollectionLayoutTest/ViewController.swift:168-171 | `abc` decodes like `aabbcc` |
| `HexColorDecoder.ExampleArgb` | CollectionLayoutTest/ViewController.swift:172-173 | `80FF0000` decodes to (128, 255, 0, 0) |
| `HexColorDecoder.ExampleHexPrefix` | CollectionLayoutTest/ViewController.swift:164-169 | `0x1` has three characters, scans to 1 after its prefix, and decodes to (255, 0, 0, 17) |
| `HexColorDecoder.ExampleCrLf` | CollectionLayoutTest/ViewController.swift:163-169 | `1\r\n2` counts as three `Character`s, scans to 1, and decodes to (255, 0, 0, 17) |
| `HexColorDecoder.ExampleBadLength` | CollectionLayoutTest/ViewController.swift:174-175 | five digits decode to the transparent colour |
| `HexColorDecoder.ExampleNoDigits` | CollectionLayoutTest/ViewController.swift:164-171 | `zzzzzz` decodes to opaque black: six non-digits are not rejected |
| `Palette.Entries` | CollectionLayoutTest/ViewController.swift:188-197 | the ten (hex colour, image name) pairs in order |
| `Palette.CellIndex` | CollectionLayoutTest/ViewController.swift:224 | `indexPath.row % vcs.count` with Swift's truncating `%` |
| `Palette.SwiftRemainder` | CollectionLayoutTest/ViewController.swift:224 | Swift's `%`: the remainder lies in 0..n-1 for a non-negative dividend and in -(n-1)..0 for a negative one |
| `Palette.CellIndexInBounds` | CollectionLayoutTest/ViewController.swift:224 | for any row at least 0 the index lies inside the table and equals the row modulo the table size |
| `Palette.CellIndexOfAnyRow` | CollectionLayoutTest/ViewController.swift:224 | the index differs from the row by a multiple of the table size; a negative row that is not such a multiple gives a negative index |
| `Palette.CellEntry` | CollectionLayoutTest/ViewController.swift:224-225 | the entry of a row is the table entry at the row modulo the table size |
| `Palette.EntryIsSixDigits` | CollectionLayoutTest/ViewController.swift:188-197 | every colour in the table is six hex digits |
| `Palette.EntryBytes` | CollectionLayoutTest/ViewController.swift:188-197 | the bytes each table colour spells are the listed channels |
| `Palette.EntryDecodes` | CollectionLayoutTest/ViewController.swift:188-197 | each table colour decodes to the listed colour |
| `Palette.CellBackground` | CollectionLayoutTest/ViewController.swift:224-226 | every cell's background is opaque and is the listed colour of its row modulo the table size |
| `Palette.CellBackgroundPeriodic` | CollectionLayoutTest/ViewController.swift:224-226 | rows one table length apart get the same background |

## Left out

- `CubeCollectionViewLayout` (ViewController.swift:14-61) and `CubeAttributesAnimator` (92-137): these are toolkit overrides. Their content is floating-point offsets and Core Animation transforms, which are foreign calls that mutate layer state.
- `CubeCollectionViewLayoutAttributes.copy` and `isEqual` (63-90): Foundation object copying and identity comparison.
- The final conversion into a `UIColor` (177), which divides each channel by 255 in floating point. The model stops at the 0..255 channels.
- `SimpleCollectionViewCell.bind` (155-158) is modelled only as `Palette.CellBackground`. Its image name argument is unused by the app.
- `cellForItemAt` (220-231) is modelled in its lookup and its `bind` call (224-226), as `Palette.CellEntry` and `Palette.CellBackground`. Dequeuing the cell and its clip-to-bounds flag (227) are view state and are not modelled.
- `TableViewController.swift`, `viewDidLoad` (199-208), and the other delegate and data-source methods (211-218, 233-248). They cover navigation, segues, and sizing by float division. The item count `Int16.max` only bounds the rows, and the lookup handles every row at least 0.
- Unicode: alphanumerics are ASCII letters and digits only. `CharacterSet.alphanumerics` also contains non-ASCII letters, marks and digits, which the model treats as padding. Grapheme clusters are modelled only as far as ASCII goes: a CR LF pair counts as one `Character`, and every other ASCII character counts as one.
- The scanner's skipping of leading whitespace is not modelled. The trimmed string never starts with whitespace.
- `Palette.SwiftRemainder`: it states the sign and range of the remainder but not its congruence for a general divisor. `Palette.CellIndexOfAnyRow` states the congruence for the table size.
