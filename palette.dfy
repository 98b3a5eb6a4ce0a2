/**
 * The demo grid's cell colouring: a fixed table of (hex colour, image name)
 * pairs, cycled through by row number, each cell's background being the
 * decoded colour of its entry.
 */
module Palette {
  import opened Ascii
  import opened Trimming
  import opened HexScanner
  import opened HexColorDecoder

  /** The table of (hex colour, image name) pairs. */
  const Entries: seq<(string, string)> := [
    ("f44336", "nature1"),
    ("9c27b0", "nature2"),
    ("3f51b5", "nature3"),
    ("03a9f4", "animal1"),
    ("009688", "animal2"),
    ("8bc34a", "animal3"),
    ("FFEB3B", "nature1"),
    ("FF9800", "nature2"),
    ("795548", "nature3"),
    ("607D8B", "animal1")
  ]

  /** Swift's `%` on `Int`: truncating, so the remainder has the sign of the dividend. */
  function SwiftRemainder(a: int, n: int): (r: int)
    requires n > 0
    ensures a >= 0 ==> 0 <= r < n
    ensures a < 0 ==> -n < r <= 0
  {
    if a >= 0 then a % n else -((-a) % n)
  }

  /** `indexPath.row % vcs.count`. */
  function CellIndex(row: int): int {
    SwiftRemainder(row, |Entries|)
  }

  /** A row the toolkit can ask for (never negative) gives an index inside the table, the row modulo its size. */
  lemma CellIndexInBounds(row: int)
    requires row >= 0
    ensures 0 <= CellIndex(row) < |Entries|
    ensures CellIndex(row) == row % |Entries|
  {
  }

  /**
   * For every row the index differs from the row by a multiple of the table
   * size; a negative row not such a multiple gives a negative index, on which
   * `vcs[i]` would trap.
   */
  lemma CellIndexOfAnyRow(row: int)
    ensures (row - CellIndex(row)) % |Entries| == 0
    ensures row < 0 && row % |Entries| != 0 ==> CellIndex(row) < 0
  {
  }

  /** `vcs[indexPath.row % vcs.count]`. */
  function CellEntry(row: int): (e: (string, string))
    requires row >= 0
    ensures e in Entries
    ensures e == Entries[row % |Entries|]
  {
    CellIndexInBounds(row);
    Entries[CellIndex(row)]
  }

  /** The decoded colours of the table, in order. */
  const Colors: seq<Argb> := [
    Argb(255, 244, 67, 54),
    Argb(255, 156, 39, 176),
    Argb(255, 63, 81, 181),
    Argb(255, 3, 169, 244),
    Argb(255, 0, 150, 136),
    Argb(255, 139, 195, 74),
    Argb(255, 255, 235, 59),
    Argb(255, 255, 152, 0),
    Argb(255, 121, 85, 72),
    Argb(255, 96, 125, 139)
  ]

  /** Every colour in the table is six hex digits and nothing else. */
  lemma EntryIsSixDigits(i: int)
    requires 0 <= i < |Entries|
    ensures |Entries[i].0| == 6 && AllHexDigits(Entries[i].0)
  {
    if i == 0 {
      assert Entries[i].0 == "f44336";
    } else if i == 1 {
      assert Entries[i].0 == "9c27b0";
    } else if i == 2 {
      assert Entries[i].0 == "3f51b5";
    } else if i == 3 {
      assert Entries[i].0 == "03a9f4";
    } else if i == 4 {
      assert Entries[i].0 == "009688";
    } else if i == 5 {
      assert Entries[i].0 == "8bc34a";
    } else if i == 6 {
      assert Entries[i].0 == "FFEB3B";
    } else if i == 7 {
      assert Entries[i].0 == "FF9800";
    } else if i == 8 {
      assert Entries[i].0 == "795548";
    } else {
      assert Entries[i].0 == "607D8B";
    }
  }

  /** The bytes each table colour spells are the channels listed for it. */
  lemma EntryBytes(i: int)
    requires 0 <= i < |Entries|
    requires |Entries[i].0| == 6 && AllHexDigits(Entries[i].0)
    ensures var h := Entries[i].0;
      Colors[i] == Argb(255, ByteValue(h[0], h[1]), ByteValue(h[2], h[3]), ByteValue(h[4], h[5]))
  {
    if i == 0 {
      assert Entries[i].0 == "f44336";
    } else if i == 1 {
      assert Entries[i].0 == "9c27b0";
    } else if i == 2 {
      assert Entries[i].0 == "3f51b5";
    } else if i == 3 {
      assert Entries[i].0 == "03a9f4";
    } else if i == 4 {
      assert Entries[i].0 == "009688";
    } else if i == 5 {
      assert Entries[i].0 == "8bc34a";
    } else if i == 6 {
      assert Entries[i].0 == "FFEB3B";
    } else if i == 7 {
      assert Entries[i].0 == "FF9800";
    } else if i == 8 {
      assert Entries[i].0 == "795548";
    } else {
      assert Entries[i].0 == "607D8B";
    }
  }

  /** Each entry of the table decodes to the colour listed for it. */
  lemma EntryDecodes(i: int)
    requires 0 <= i < |Entries|
    ensures HexColor(Entries[i].0) == Colors[i]
  {
    EntryIsSixDigits(i);
    DecodeSixDigits(Entries[i].0);
    EntryBytes(i);
  }

  /**
   * `bind(color:imageName:)`: the background is the entry's colour decoded (the
   * image name is not used). Every cell gets an opaque colour: the one listed
   * for its row modulo the table size.
   */
  function CellBackground(row: int): (c: Argb)
    requires row >= 0
    ensures c == Colors[row % |Entries|]
    ensures c.a == 255
  {
    var k := row % |Entries|;
    EntryIsSixDigits(k);
    DecodeSixDigits(Entries[k].0);
    EntryDecodes(k);
    HexColor(CellEntry(row).0)
  }

  /** Rows a table-length apart look the same. */
  lemma CellBackgroundPeriodic(row: int)
    requires row >= 0
    ensures CellBackground(row + |Entries|) == CellBackground(row)
  {
    assert (row + |Entries|) % |Entries| == row % |Entries|;
    assert CellEntry(row + |Entries|) == CellEntry(row);
  }
}
