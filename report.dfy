/**
 The console output of one bus scan, as pure functions of the scan result and
 the bus speed. The log is a sequence of strings, one per call to the debug
 logger, so every grid cell and every summary address is one entry.
 */
module Report {

  /** An 8-bit unsigned value, the element type of the scan result buffer. */
  type Byte = x: int | 0 <= x < 256

  /** A 7-bit I2C device address. */
  type Address = a: int | 0 <= a < 128

  /** The scan result buffer: one byte per address 0..127, nonzero meaning "present". */
  type ScanTable = t: seq<Byte> | |t| == 128 witness seq(128, _ => 0)

  /**
   The bus speeds the scanner knows by name; any other code is printed as
   unknown. `Other(code)` stands only for a code different from the driver's
   codes of the three named speeds, which are always written by name.
   */
  datatype BusSpeed = Standard | Fast | FastPlus | Other(code: nat)

  // Fixed texts of the report.
  const ScanBanner := "---- I2C Scan at "
  const HeaderIndent := "     "
  const NewLine := "\n"
  const NotProbed := "   "
  const Detection := "[] "
  const NoDetection := ".. "
  const SummaryIntro := "\n *** I2C devices detected at: "
  const NoDevices := "NO DEVICES DETECTED"
  const Trailer := "\n\n"

  // Error events; the errno value and its description are not modelled.
  const OpenError := "ERROR: I2CMaster_Open"
  const SpeedError := "ERROR: Failed to set I2C bus speed"
  const TimeoutError := "ERROR: I2CMaster_SetTimeout"

  /** The text printed after the scan banner for a bus speed. */
  function SpeedName(speed: BusSpeed): (name: string)
    ensures name == "unknown speed\n" <==> speed.Other?
  {
    match speed
    case Standard => "100 kHz\n"
    case Fast => "400 kHz\n"
    case FastPlus => "1 MHz\n"
    case Other(_) => "unknown speed\n"
  }

  /** The two log entries that open every scan, whatever happens afterwards. */
  function SpeedHeader(speed: BusSpeed): (header: seq<string>)
    ensures |header| == 2 && header[0] == ScanBanner
    ensures header[1] == "unknown speed\n" <==> speed.Other?
  {
    [ScanBanner, SpeedName(speed)]
  }

  /** Each bus speed the scanner knows is printed under its own name. */
  lemma SpeedNamesDistinct(s: BusSpeed, t: BusSpeed)
    requires !s.Other? && !t.Other?
    ensures SpeedName(s) == SpeedName(t) <==> s == t
  {
  }

  // ---------------------------------------------------------------------------
  // Hexadecimal formatting ("%X") and its inverse

  /** The upper-case hexadecimal digit of a value below 16. */
  function HexDigit(d: nat): (c: char)
    requires d < 16
    ensures DigitValue(c) == d
  {
    if d < 10 then (48 + d) as char else (55 + d) as char
  }

  /** The value of an upper-case hexadecimal digit, or -1 for any other character. */
  function DigitValue(c: char): (v: int)
    ensures -1 <= v < 16
  {
    if '0' <= c <= '9' then c as int - 48
    else if 'A' <= c <= 'F' then c as int - 55
    else -1
  }

  /** Reading a digit back and printing it again gives the same character. */
  lemma DigitRoundTrip(c: char)
    requires DigitValue(c) >= 0
    ensures HexDigit(DigitValue(c)) == c
  {
  }

  /** "%02X": two upper-case hexadecimal digits, read back as the value printed. */
  function Hex2(n: nat): (s: string)
    requires n < 256
    ensures |s| == 2 && DigitValue(s[0]) >= 0 && DigitValue(s[1]) >= 0
    ensures 16 * DigitValue(s[0]) + DigitValue(s[1]) == n
  {
    [HexDigit(n / 16), HexDigit(n % 16)]
  }

  /** "0%01X ": a column label of the grid header. */
  function ColumnLabel(col: nat): (s: string)
    requires col < 16
    ensures |s| == 3 && s[0] == '0' && s[2] == ' ' && DigitValue(s[1]) == col
  {
    "0" + [HexDigit(col)] + " "
  }

  /** "0x%02X ": a row label of the grid, and an address of the summary. */
  function AddrLabel(a: nat): (s: string)
    requires a < 256
    ensures |s| == 5 && s[..2] == "0x" && s[4] == ' '
    ensures DigitValue(s[2]) >= 0 && DigitValue(s[3]) >= 0
    ensures 16 * DigitValue(s[2]) + DigitValue(s[3]) == a
  {
    "0x" + Hex2(a) + " "
  }

  /** The label of grid line `row`: "0x%02X " of its first address, written digit by digit. */
  function RowLabel(row: nat): (s: string)
    requires row < 16
    ensures |s| == 5 && s[..2] == "0x" && s[4] == ' '
    ensures DigitValue(s[2]) == row && s[3] == '0'
  {
    "0x" + [HexDigit(row), '0'] + " "
  }

  /** The label of grid line `row` is that of the address 16*row. */
  lemma RowLabelIsAddrLabel(row: nat)
    requires row < 16
    ensures RowLabel(row) == AddrLabel(16 * row)
  {
    assert (16 * row) / 16 == row && (16 * row) % 16 == 0;
    assert Hex2(16 * row) == [HexDigit(row), '0'];
  }

  /** Different addresses get different labels. */
  lemma AddrLabelInjective(a: nat, b: nat)
    requires a < 256 && b < 256
    ensures AddrLabel(a) == AddrLabel(b) <==> a == b
  {
    if AddrLabel(a) == AddrLabel(b) {
      var s := AddrLabel(a);
      assert 16 * DigitValue(s[2]) + DigitValue(s[3]) == a;
    }
  }

  // ---------------------------------------------------------------------------
  // The grid

  /** The first `n` column labels of the header. */
  function HeaderLabels(n: nat): (labels: seq<string>)
    requires n <= 16
    ensures |labels| == n
  {
    if n == 0 then [] else HeaderLabels(n - 1) + [ColumnLabel(n - 1)]
  }

  /** The header line of the grid: an indent, the 16 column labels, a line break. */
  function HeaderRow(): (header: seq<string>)
    ensures |header| == 18 && header[0] == HeaderIndent && header[17] == NewLine
  {
    [HeaderIndent] + HeaderLabels(16) + [NewLine]
  }

  /** The header lists the columns 00..0F in order. */
  lemma {:induction false} HeaderLabelsAt(n: nat, col: nat)
    requires col < n <= 16
    ensures |HeaderLabels(n)| == n && HeaderLabels(n)[col] == ColumnLabel(col)
  {
    if col < n - 1 {
      HeaderLabelsAt(n - 1, col);
    }
  }

  /** The cell printed for an address: blank for address 0, else present or absent. */
  function Cell(table: ScanTable, a: Address): (cell: string)
    ensures |cell| == 3
    ensures cell == Detection <==> a != 0 && table[a] != 0
    ensures cell == NotProbed <==> a == 0
  {
    if a == 0 then NotProbed
    else if table[a] != 0 then Detection
    else NoDetection
  }

  /** The cells of columns 0..n-1 of grid row `row`. */
  function RowCells(table: ScanTable, row: nat, n: nat): (cells: seq<string>)
    requires row < 8 && n <= 16
    ensures |cells| == n
  {
    if n == 0 then [] else RowCells(table, row, n - 1) + [Cell(table, 16 * row + n - 1)]
  }

  /** One grid line: its label 0x00..0x70, 16 cells, a line break. */
  function GridRow(table: ScanTable, row: nat): (line: seq<string>)
    requires row < 8
    ensures |line| == 18 && line[0] == RowLabel(row) && line[17] == NewLine
  {
    [RowLabel(row)] + RowCells(table, row, 16) + [NewLine]
  }

  /** The first `k` grid lines. */
  function GridRows(table: ScanTable, k: nat): (lines: seq<string>)
    requires k <= 8
    ensures k > 0 ==> lines != [] && lines[|lines| - 1] == NewLine
  {
    if k == 0 then [] else GridRows(table, k - 1) + GridRow(table, k - 1)
  }

  lemma {:induction false} RowCellsAt(table: ScanTable, row: nat, n: nat, col: nat)
    requires row < 8 && col < n <= 16
    ensures |RowCells(table, row, n)| == n
    ensures RowCells(table, row, n)[col] == Cell(table, 16 * row + col)
  {
    if col < n - 1 {
      RowCellsAt(table, row, n - 1, col);
    } else if n > 1 {
      RowCellsAt(table, row, n - 1, 0);
    }
  }

  lemma {:induction false} GridRowsLength(table: ScanTable, k: nat)
    requires k <= 8
    ensures |GridRows(table, k)| == 18 * k
  {
    if k > 0 {
      GridRowsLength(table, k - 1);
      RowCellsAt(table, k - 1, 16, 0);
    }
  }

  /** Line `row` of the grid occupies the 18 entries from 18*row on. */
  lemma {:induction false} GridRowsSlice(table: ScanTable, k: nat, row: nat)
    requires row < k <= 8
    ensures |GridRows(table, k)| == 18 * k
    ensures GridRows(table, k)[18 * row..18 * row + 18] == GridRow(table, row)
  {
    var prev, last := GridRows(table, k - 1), GridRow(table, k - 1);
    GridRowsLength(table, k);
    GridRowsLength(table, k - 1);
    if row < k - 1 {
      GridRowsSlice(table, k - 1, row);
      SliceOfLeft(prev, last, 18 * row, 18 * row + 18);
    } else {
      SliceOfRight(prev, last);
    }
  }

  /** A slice within the left part of a concatenation is a slice of that part. */
  lemma SliceOfLeft<T>(p: seq<T>, q: seq<T>, i: nat, j: nat)
    requires i <= j <= |p|
    ensures (p + q)[i..j] == p[i..j]
  {
  }

  /** The right part of a concatenation is its slice after the left part. */
  lemma SliceOfRight<T>(p: seq<T>, q: seq<T>)
    ensures (p + q)[|p|..|p| + |q|] == q
  {
  }

  /** A grid line: its label, the cells of its 16 addresses, a line break. */
  lemma GridRowLayout(table: ScanTable, row: nat, col: nat)
    requires row < 8 && col < 16
    ensures |GridRow(table, row)| == 18
    ensures GridRow(table, row)[0] == AddrLabel(16 * row)
    ensures GridRow(table, row)[17] == NewLine
    ensures GridRow(table, row)[1 + col] == Cell(table, 16 * row + col)
  {
    RowCellsAt(table, row, 16, col);
    RowLabelIsAddrLabel(row);
  }

  /**
   The grid has 8 lines of 18 entries; line `row` is labelled with the address
   16*row, and its entry for column `col` is the cell of address 16*row+col,
   which agrees with the scan result for that address.
   */
  lemma GridCellAt(table: ScanTable, k: nat, row: nat, col: nat)
    requires row < k <= 8 && col < 16
    ensures |GridRows(table, k)| == 18 * k
    ensures GridRows(table, k)[18 * row] == AddrLabel(16 * row)
    ensures GridRows(table, k)[18 * row + 17] == NewLine
    ensures GridRows(table, k)[18 * row + 1 + col] ==
      if row == 0 && col == 0 then NotProbed
      else if table[16 * row + col] != 0 then Detection
      else NoDetection
  {
    var g := GridRows(table, k);
    GridRowsSlice(table, k, row);
    GridRowLayout(table, row, col);
    var line := g[18 * row..18 * row + 18];
    assert g[18 * row] == line[0];
    assert g[18 * row + 17] == line[17];
    assert g[18 * row + 1 + col] == line[1 + col];
  }

  // ---------------------------------------------------------------------------
  // The summary line

  /** The addresses in 1..n-1 whose result is nonzero, in increasing order. */
  function PresentBelow(table: ScanTable, n: nat): (present: seq<Address>)
    requires n <= 128
    ensures |present| < n || n == 0
  {
    if n <= 1 then []
    else PresentBelow(table, n - 1) + (if table[n - 1] != 0 then [n - 1] else [])
  }

  /** The printed label of each address, in order. */
  function Labels(addrs: seq<Address>): (labels: seq<string>)
    ensures |labels| == |addrs|
  {
    if addrs == [] then [] else Labels(addrs[..|addrs| - 1]) + [AddrLabel(addrs[|addrs| - 1])]
  }

  lemma LabelsAppend(addrs: seq<Address>, a: Address)
    ensures Labels(addrs + [a]) == Labels(addrs) + [AddrLabel(a)]
  {
    assert (addrs + [a])[..|addrs|] == addrs;
  }

  /** The summary entries for the addresses 1..n-1: "0x%02X " for each nonzero result. */
  function SummaryEntries(table: ScanTable, n: nat): (entries: seq<string>)
    requires n <= 128
    ensures |entries| < n || n == 0
  {
    if n <= 1 then []
    else SummaryEntries(table, n - 1) + (if table[n - 1] != 0 then [AddrLabel(n - 1)] else [])
  }

  /** The summary: the intro, the present addresses, the no-device marker if none, a blank line. */
  function Summary(table: ScanTable): (summary: seq<string>)
    ensures |summary| >= 3 && summary[0] == SummaryIntro && summary[|summary| - 1] == Trailer
  {
    var entries := SummaryEntries(table, 128);
    [SummaryIntro] + entries + (if entries == [] then [NoDevices] else []) + [Trailer]
  }

  /** The summary entries are the labels of the present addresses, in order. */
  lemma {:induction false} SummaryEntriesAreLabels(table: ScanTable, n: nat)
    requires n <= 128
    ensures SummaryEntries(table, n) == Labels(PresentBelow(table, n))
  {
    if n > 1 {
      SummaryEntriesAreLabels(table, n - 1);
      var below := PresentBelow(table, n - 1);
      if table[n - 1] != 0 {
        LabelsAppend(below, n - 1);
      } else {
        assert PresentBelow(table, n) == below + [] == below;
        assert SummaryEntries(table, n) == SummaryEntries(table, n - 1) + [];
      }
    }
  }

  /**
   PresentBelow lists, strictly increasing, exactly the addresses in 1..n-1
   whose result is nonzero.
   */
  lemma {:induction false} PresentBelowSpec(table: ScanTable, n: nat)
    requires n <= 128
    ensures forall i, j :: 0 <= i < j < |PresentBelow(table, n)| ==>
      PresentBelow(table, n)[i] < PresentBelow(table, n)[j]
    ensures forall a :: a in PresentBelow(table, n) <==> 1 <= a < n && table[a] != 0
  {
    if n > 1 {
      PresentBelowSpec(table, n - 1);
      var below := PresentBelow(table, n - 1);
      forall i | 0 <= i < |below|
        ensures below[i] < n - 1
      {
        assert below[i] in below;
      }
    }
  }

  lemma {:induction false} LabelsAt(addrs: seq<Address>, i: nat)
    requires i < |addrs|
    ensures Labels(addrs)[i] == AddrLabel(addrs[i])
  {
    var m := |addrs| - 1;
    if i < m {
      LabelsAt(addrs[..m], i);
    } else if m > 0 {
      LabelsAt(addrs[..m], 0);
    }
  }

  /**
   The summary prints, in increasing order, exactly the present addresses
   1..127, each as "0x%02X ": its entries after the intro are the labels of a
   strictly increasing list of addresses, and an address is in that list iff
   it is in 1..127 and its result is nonzero. After those labels comes the
   no-device marker when the list is empty, then the closing blank line, and
   nothing else.
   */
  lemma SummaryListsPresent(table: ScanTable)
    ensures var present := PresentBelow(table, 128);
      && (forall i, j :: 0 <= i < j < |present| ==> present[i] < present[j])
      && (forall a :: a in present <==> 1 <= a < 128 && table[a] != 0)
      && |Summary(table)| >= 2 + |present|
      && Summary(table)[0] == SummaryIntro
      && (forall i :: 0 <= i < |present| ==> Summary(table)[1 + i] == AddrLabel(present[i]))
      && Summary(table) == [SummaryIntro] + Labels(present) + (if present == [] then [NoDevices] else []) + [Trailer]
  {
    PresentBelowSpec(table, 128);
    SummaryLayout(table);
    SummaryEntriesAreLabels(table, 128);
  }

  /** The summary opens with its intro, followed by the labels of the present addresses. */
  lemma SummaryLayout(table: ScanTable)
    ensures |Summary(table)| >= 2 + |PresentBelow(table, 128)|
    ensures Summary(table)[0] == SummaryIntro
    ensures forall i :: 0 <= i < |PresentBelow(table, 128)| ==>
      Summary(table)[1 + i] == AddrLabel(PresentBelow(table, 128)[i])
  {
    var present := PresentBelow(table, 128);
    var entries := SummaryEntries(table, 128);
    var marker := if entries == [] then [NoDevices] else [];
    SummaryEntriesAreLabels(table, 128);
    assert Summary(table) == [SummaryIntro] + entries + marker + [Trailer];
    forall i | 0 <= i < |present|
      ensures Summary(table)[1 + i] == AddrLabel(present[i])
    {
      LabelsAt(present, i);
      assert Summary(table)[1 + i] == entries[i];
    }
  }

  /** "NO DEVICES DETECTED" is printed iff no address in 1..127 is present. */
  lemma NoDevicesIffNonePresent(table: ScanTable)
    ensures NoDevices in Summary(table) <==> forall a :: 1 <= a < 128 ==> table[a] == 0
  {
    if forall a :: 1 <= a < 128 ==> table[a] == 0 {
      NoneSummarisedWhenNonePresent(table, 128);
      assert Summary(table)[1] == NoDevices;
    } else {
      var a :| 1 <= a < 128 && table[a] != 0;
      NoMarkerWhenPresent(table, a);
    }
  }

  lemma {:induction false} NoneSummarisedWhenNonePresent(table: ScanTable, n: nat)
    requires n <= 128 && forall a :: 1 <= a < n ==> table[a] == 0
    ensures SummaryEntries(table, n) == []
  {
    if n > 1 {
      NoneSummarisedWhenNonePresent(table, n - 1);
    }
  }

  lemma {:induction false} SomeSummarisedWhenPresent(table: ScanTable, n: nat, a: nat)
    requires 1 <= a < n <= 128 && table[a] != 0
    ensures SummaryEntries(table, n) != []
  {
    if a < n - 1 {
      SomeSummarisedWhenPresent(table, n - 1, a);
    }
  }

  lemma {:induction false} SummaryEntriesAreShort(table: ScanTable, n: nat)
    requires n <= 128
    ensures forall e :: e in SummaryEntries(table, n) ==> |e| == 5
  {
    if n > 1 {
      SummaryEntriesAreShort(table, n - 1);
    }
  }

  lemma NoMarkerWhenPresent(table: ScanTable, a: nat)
    requires 1 <= a < 128 && table[a] != 0
    ensures NoDevices !in Summary(table)
  {
    var entries := SummaryEntries(table, 128);
    var none: seq<string> := [];
    SomeSummarisedWhenPresent(table, 128, a);
    SummaryEntriesAreShort(table, 128);
    assert Summary(table) == [SummaryIntro] + entries + none + [Trailer];
    assert |SummaryIntro| != |NoDevices| && |Trailer| != |NoDevices|;
    assert forall e :: e in Summary(table) ==> |e| != |NoDevices|;
  }

  // No entry of the report can be taken for the scan banner: every entry of
  // the header, the grid and the summary differs from it in length.

  lemma {:induction false} HeaderLabelsAreShort(n: nat)
    requires n <= 16
    ensures forall e :: e in HeaderLabels(n) ==> |e| == 3
  {
    if n > 0 {
      HeaderLabelsAreShort(n - 1);
    }
  }

  lemma {:induction false} RowCellsAreShort(table: ScanTable, row: nat, n: nat)
    requires row < 8 && n <= 16
    ensures forall e :: e in RowCells(table, row, n) ==> |e| == 3
  {
    if n > 0 {
      RowCellsAreShort(table, row, n - 1);
    }
  }

  lemma {:induction false} GridRowsHaveNoBanner(table: ScanTable, k: nat)
    requires k <= 8
    ensures ScanBanner !in GridRows(table, k)
  {
    if k > 0 {
      GridRowsHaveNoBanner(table, k - 1);
      RowCellsAreShort(table, k - 1, 16);
      assert ScanBanner !in GridRow(table, k - 1);
    }
  }

  lemma HeaderRowHasNoBanner()
    ensures ScanBanner !in HeaderRow()
  {
    HeaderLabelsAreShort(16);
    assert |HeaderIndent| != |ScanBanner| && |NewLine| != |ScanBanner|;
    NotInThree(ScanBanner, [HeaderIndent], HeaderLabels(16), [NewLine]);
  }

  lemma SummaryHasNoBanner(table: ScanTable)
    ensures ScanBanner !in Summary(table)
  {
    var entries := SummaryEntries(table, 128);
    var marker := if entries == [] then [NoDevices] else [];
    SummaryEntriesAreShort(table, 128);
    assert |SummaryIntro| != |ScanBanner| && |NoDevices| != |ScanBanner| && |Trailer| != |ScanBanner|;
    NotInThree(ScanBanner, [SummaryIntro], entries, marker);
    assert Summary(table) == [SummaryIntro] + entries + marker + [Trailer];
  }

  /** The scan banner appears nowhere in what a completed scan prints after its speed header. */
  lemma ReportHasNoBanner(table: ScanTable)
    ensures ScanBanner !in ScanReport(table)
  {
    HeaderRowHasNoBanner();
    GridRowsHaveNoBanner(table, 8);
    SummaryHasNoBanner(table);
    NotInThree(ScanBanner, HeaderRow(), GridRows(table, 8), Summary(table));
  }

  lemma NotInThree<T>(x: T, p: seq<T>, q: seq<T>, r: seq<T>)
    requires x !in p && x !in q && x !in r
    ensures x !in p + q + r
  {
  }

  /** Everything a completed scan prints after the speed header. */
  function ScanReport(table: ScanTable): seq<string>
  {
    HeaderRow() + GridRows(table, 8) + Summary(table)
  }
}
