# I2C bus scanner — a Dafny model

The I2C scanner is a small embedded application. It probes every 7-bit
address on an I2C bus except the reserved address 0 (so 1..127), at up to
three bus speeds, and prints a grid showing
which addresses acknowledged a one-byte read. Under the grid it prints a
summary of the addresses that did. The whole program is
`i2c_scanner/main.c`.

This project models that program in Dafny:

- `Report` (report.dfy) holds the console output of one scan, as pure
  functions of the scan result and the bus speed:
  - the speed header;
  - the hexadecimal labels;
  - the grid header;
  - the grid of 8 lines of 16 cells;
  - the summary.
- `Bus` (bus.dfy) holds the I2C master driver as the scanner sees it:
  - `Transport` gives the answers of open, set-speed, set-timeout and of each
    one-byte read.
  - `Call` records one driver call, including `close`.
  - `Classify` is the scan result a completed sweep produces.
  - `ScanCalls` is the trace of calls one scan makes.
- `I2cScanner` (scanner.dfy) holds the program state in the class
  `ScannerApp`:
  - the global descriptor `i2cFd`;
  - the 128-byte `scanResult` buffer;
  - the debug log, as a sequence of strings;
  - the trace of driver calls.

  Its methods follow the C functions step by step:
  - `PerformScan`, split into the setup (`OpenAndConfigure`), the header
    loop, the two nested sweep loops (`SweepGrid`, `ScanRow`,
    `ProbeColumns`, `ProbeAddress`) and the summary loop;
  - `ClosePeripheralsAndHandlers`;
  - `Run`, the body of `main`.

  Each method is proved against the specification functions:
  - `ScanLog`, `ScanCalls` and `Classify` for one scan;
  - `MainLog`, `MainCalls` and `LastResult` for `main`.

  Lemmas state what those functions promise.

Some behaviours of `main.c` are easy to miss, and the model keeps each of
them:
- A failed set-speed or set-timeout call returns without closing the
  descriptor it just opened (main.c:112-122). Only a completed scan closes it
  (main.c:177).
- An address is present when its read returns anything other than -1
  (main.c:147). Any other value, negative ones included, counts as present.
- The termination flag is read once, before the first scan, and never between
  scans (main.c:189).
- A scan that stops early returns before touching the result buffer
  (main.c:109, 115, 121). No result, all-absent or otherwise, comes out of it.
- `main` finally closes whatever `i2cFd` holds (main.c:71, 203). After a
  completed 100 kHz scan that descriptor is already closed, so it is closed a
  second time. So `main` makes one close per completed scan plus one more,
  and the closes need not match the opens.

## Model

| member | source | states |
|---|---|---|
| `Report.SpeedName` | i2c_scanner/main.c:85-103 | the text after the banner is "unknown speed" exactly for a speed other than 100 kHz, 400 kHz and 1 MHz |
| `Report.SpeedHeader` | i2c_scanner/main.c:85-103 | every scan opens with two entries, the banner then the speed name, and the name is "unknown speed" exactly for an unknown speed |
| `Report.SpeedNamesDistinct` | i2c_scanner/main.c:86-99 | the three known speeds are printed under three different names |
| `Report.HexDigit` | i2c_scanner/main.c:129 | the upper-case hex digit printed for a value 0..15 reads back as that value |
| `Report.DigitRoundTrip` | i2c_scanner/main.c:129 | printing the value of a hex digit gives the digit back |
| `Report.Hex2` | i2c_scanner/main.c:136 | "%02X" prints two hex digits that read back as the value |
| `Report.ColumnLabel` | i2c_scanner/main.c:129 | a header label is "0", the column's hex digit, a space |
| `Report.AddrLabel` | i2c_scanner/main.c:166 | "0x%02X " is five characters: "0x", two upper-case hex digits that read back as the address, and a space |
| `Report.RowLabel` | i2c_scanner/main.c:136 | the label of grid line `row` is "0x", the row's hex digit, "0", a space |
| `Report.RowLabelIsAddrLabel` | i2c_scanner/main.c:136 | the label of grid line `row` is "0x%02X " of its first address 16*row |
| `Report.AddrLabelInjective` | i2c_scanner/main.c:166 | different addresses get different labels |
| `Report.HeaderLabels` | i2c_scanner/main.c:127-130 | the header loop prints one label per column |
| `Report.HeaderRow` | i2c_scanner/main.c:125-131 | the header line is 18 entries: the indent, the column labels, a line break |
| `Report.HeaderLabelsAt` | i2c_scanner/main.c:126-131 | the header lists the columns 00..0F in order |
| `Report.Cell` | i2c_scanner/main.c:141-155 | every cell is three characters; it is "[] " iff the address is not 0 and its result is nonzero, and blank iff the address is 0 |
| `Report.RowCells` | i2c_scanner/main.c:137-156 | the inner loop prints one cell per column |
| `Report.GridRow` | i2c_scanner/main.c:136-157 | a grid line is 18 entries, starting with its label and ending with a line break |
| `Report.GridRows` | i2c_scanner/main.c:134-158 | a non-empty grid ends with a line break |
| `Report.RowCellsAt` | i2c_scanner/main.c:137-156 | the cells of a grid line are, in order, those of its 16 addresses |
| `Report.GridRowsLength` | i2c_scanner/main.c:134-158 | k grid lines make 18*k log entries |
| `Report.GridRowsSlice` | i2c_scanner/main.c:134-158 | grid line `row` occupies the 18 entries from 18*row on |
| `Report.GridRowLayout` | i2c_scanner/main.c:136-157 | a grid line is its label, the 16 cells of its addresses, a line break |
| `Report.GridCellAt` | i2c_scanner/main.c:134-158 | line `row` of the grid is labelled 0x00..0x70 and ends with a line break; its cell for column `col` is blank for address 0, "[] " when the result is nonzero, ".. " otherwise |
| `Report.PresentBelow` | i2c_scanner/main.c:163-169 | at most n-1 addresses of 1..n-1 can be listed |
| `Report.SummaryEntries` | i2c_scanner/main.c:163-169 | the summary loop prints at most one entry per address it visits |
| `Report.Summary` | i2c_scanner/main.c:160-175 | the summary opens with its intro and ends with the blank line |
| `Report.Labels` | i2c_scanner/main.c:163-169 | one label per listed address |
| `Report.LabelsAppend` | i2c_scanner/main.c:166 | listing one more address appends its label |
| `Report.LabelsAt` | i2c_scanner/main.c:166 | the i-th label is that of the i-th address |
| `Report.SummaryEntriesAreLabels` | i2c_scanner/main.c:163-169 | the summary loop prints the labels of the present addresses below n, in order |
| `Report.PresentBelowSpec` | i2c_scanner/main.c:163-169 | the listed addresses strictly increase, and an address is listed iff it is in 1..n-1 with a nonzero result |
| `Report.SummaryLayout` | i2c_scanner/main.c:162-169 | the summary opens with its intro, followed by the labels of the present addresses |
| `Report.SummaryListsPresent` | i2c_scanner/main.c:160-175 | the summary lists exactly the present addresses of 1..127, in increasing order, as "0x%02X "; the whole summary is the intro, those labels, the no-device marker only when there are none, and the closing blank line |
| `Report.NoDevicesIffNonePresent` | i2c_scanner/main.c:161-173 | "NO DEVICES DETECTED" is printed iff no address of 1..127 is present |
| `Report.NoneSummarisedWhenNonePresent` | i2c_scanner/main.c:163-169 | with no present address the summary loop prints nothing |
| `Report.SomeSummarisedWhenPresent` | i2c_scanner/main.c:163-169 | with a present address the summary loop prints something |
| `Report.SummaryEntriesAreShort` | i2c_scanner/main.c:166 | every summary entry has the five characters of "0x%02X " |
| `Report.NoMarkerWhenPresent` | i2c_scanner/main.c:171-173 | with a present address, the no-device marker is not printed |
| `Report.ScanReport` | i2c_scanner/main.c:125-175 | no contract of its own: the report of a completed scan is the header line, the eight grid lines and the summary, in that order, so what it holds is what `HeaderRow`, `GridRows` (with 8 lines) and `Summary` state |
| `Report.ReportHasNoBanner` | i2c_scanner/main.c:125-175 | no entry of the report (header, grid or summary) is the scan banner |
| `Bus.Classify` | i2c_scanner/main.c:141-154 | the result of address 0 is 0, and every entry is 0 or 1 |
| `Bus.Probes` | i2c_scanner/main.c:134-147 | the sweep up to address n makes n-1 reads |
| `Bus.SetupCalls` | i2c_scanner/main.c:105-122 | the setup starts with open, makes at most three calls, and sets the timeout iff open and set-speed succeeded |
| `Bus.SweepCalls` | i2c_scanner/main.c:133-177 | reads and the close happen iff the setup succeeded, and the close comes last |
| `Bus.ScanCalls` | i2c_scanner/main.c:105-177 | every scan starts with open, and it goes past the three setup calls iff the setup succeeded |
| `Bus.Completes` | i2c_scanner/main.c:105-122 | no contract of its own: a scan goes on past its setup exactly when open returns a descriptor that is not negative, set-speed returns 0 and set-timeout returns 0; the three conditions are tested at lines 106, 112 and 118, and the failure branches return at 109, 115 and 121 |
| `Bus.ClassifyMeans` | i2c_scanner/main.c:141-154 | the result of address 0 is 0; any other address gets 1 iff its read did not return -1, and 0 iff it did |
| `Bus.ClassifyDependsOnlyOnReadFailures` | i2c_scanner/main.c:147-154 | two sweeps whose reads fail at the same addresses give the same result |
| `Bus.ProbesEnumerate` | i2c_scanner/main.c:134-147 | the i-th read of the sweep is a one-byte read at address i+1 |
| `Bus.SweepOrder` | i2c_scanner/main.c:134-147 | the sweep reads each address 1..127 exactly once, with length 1, in increasing order, and never reads address 0 |
| `Bus.CloseCountAppend` | i2c_scanner/main.c:71 | the closes of two traces add up |
| `Bus.NoCloseCountsZero` | i2c_scanner/main.c:71 | a trace without close() has no closes |
| `Bus.ScanCloseCount` | i2c_scanner/main.c:105-177 | a scan closes its descriptor once, as its last call, iff it completes, and otherwise never |
| `Bus.EarlyExitCalls` | i2c_scanner/main.c:105-122 | a scan that stops early makes no read and no close, leaving an opened descriptor open |
| `Bus.CompletedScanCalls` | i2c_scanner/main.c:105-177 | a completed scan opens, sets its speed, sets the 100 ms timeout, makes 127 reads at 1..127, then closes |
| `I2cScanner.SetupLog` | i2c_scanner/main.c:105-122 | the setup logs at most one error, and none iff open, set-speed and set-timeout all succeeded |
| `I2cScanner.ScanOutput` | i2c_scanner/main.c:125-175 | the grid header, grid and summary are printed iff the setup succeeded, starting with the header indent |
| `I2cScanner.ScanLog` | i2c_scanner/main.c:85-177 | a scan logs at least three entries, starting with the banner; its third entry is the grid header's indent iff the setup succeeded |
| `I2cScanner.MainCalls` | i2c_scanner/main.c:183-205 | `main`'s last call closes the descriptor held last, and without a termination request its first call is an open |
| `I2cScanner.MainLog` | i2c_scanner/main.c:183-205 | `main` logs nothing iff termination was requested, and otherwise starts with a scan banner |
| `I2cScanner.LastResult` | i2c_scanner/main.c:183-205 | the buffer is untouched when termination was requested or no scan completed, and keeps its 128 entries |
| `I2cScanner.EarlyExitLog` | i2c_scanner/main.c:85-122 | a scan that stops early logs the speed header and one error, and no grid or summary |
| `I2cScanner.SpeedsConfiguredAppend` | i2c_scanner/main.c:112 | the speeds set in two traces concatenate |
| `I2cScanner.NoSetSpeedConfiguresNothing` | i2c_scanner/main.c:112 | a trace without set-speed calls sets no speed |
| `I2cScanner.ScanConfiguresItsSpeed` | i2c_scanner/main.c:105-116 | a scan sets the bus speed once, to its own speed, exactly when the open succeeded |
| `I2cScanner.MainSpeedOrder` | i2c_scanner/main.c:185-201 | unless termination was requested, the speeds are set in the order 1 MHz, 400 kHz, 100 kHz, skipping each scan whose open failed; if it was requested, no scan runs and the only call is the final close of the descriptor held before |
| `I2cScanner.ScanAnnouncesItsSpeed` | i2c_scanner/main.c:85-177 | whatever its outcome, a scan logs exactly one banner, followed by its own speed name, and its log does not end with a banner |
| `I2cScanner.SpeedLinesAppend` | i2c_scanner/main.c:183-201 | when the first of two logs does not end with a banner, the speed names announced by both together are those of the first, then those of the second |
| `I2cScanner.MainSpeedLines` | i2c_scanner/main.c:183-201 | unless termination was requested, `main` announces exactly three speed names after its banners, "1 MHz", "400 kHz", "100 kHz" in that order, whether or not each scan completes; if it was requested, it announces none |
| `I2cScanner.MainCloseCount` | i2c_scanner/main.c:183-205 | `main` closes once per completed scan plus once at the end |
| `I2cScanner.ScanClosesOnlyItsOwn` | i2c_scanner/main.c:177 | every close in a scan is of the descriptor that scan opened |
| `I2cScanner.FailedSetupLeaksDescriptor` | i2c_scanner/main.c:112-122 | when the 1 MHz scan opens a descriptor but fails to configure it, and the later scans get other descriptors, `main` opens but never closes that descriptor |
| `I2cScanner.ScannerApp.constructor` | i2c_scanner/main.c:34 | the descriptor starts at -1, with an empty log and trace |
| `I2cScanner.ScannerApp.InitPeripheralsAndHandlers` | i2c_scanner/main.c:55-64 | initialisation always reports success |
| `I2cScanner.ScannerApp.ClosePeripheralsAndHandlers` | i2c_scanner/main.c:69-72 | closes whatever `i2cFd` holds and nothing else |
| `I2cScanner.ScannerApp.PerformScan` | i2c_scanner/main.c:77-178 | the scan makes exactly the calls `ScanCalls` and writes exactly the log `ScanLog`; a completed scan leaves `Classify`'s result in the buffer, and a scan that stops early leaves the buffer unchanged |
| `I2cScanner.ScannerApp.OpenAndConfigure` | i2c_scanner/main.c:105-122 | open, set speed, set timeout, stopping with the matching error at the first failure; reports success iff all three succeeded |
| `I2cScanner.ScannerApp.SweepAndReport` | i2c_scanner/main.c:125-177 | after a successful setup: grid header, grid, summary and the close, with the buffer filled from the reads |
| `I2cScanner.ScannerApp.SweepGrid` | i2c_scanner/main.c:133-158 | the outer loop logs the 8 grid lines, reads 1..127 in order, and fills all 128 result entries |
| `I2cScanner.ScannerApp.PrintHeaderRow` | i2c_scanner/main.c:125-131 | logs the indent, the 16 column labels and a line break |
| `I2cScanner.ScannerApp.ScanRow` | i2c_scanner/main.c:136-157 | one grid line extends the logged grid, the reads and the filled entries by one row, and leaves the entries of later rows unchanged |
| `I2cScanner.ScannerApp.ProbeColumns` | i2c_scanner/main.c:137-156 | the inner loop logs the 16 cells of its row, reads that row's addresses in order, fills that row's entries and leaves later entries unchanged |
| `I2cScanner.ScannerApp.ProbeAddress` | i2c_scanner/main.c:139-155 | address 0 gets the blank cell and entry 0 without a read; any other gets one read, then "[] " and 1 unless it returned -1, else ".. " and 0; no other entry changes |
| `I2cScanner.ScannerApp.PrintSummary` | i2c_scanner/main.c:160-175 | logs the summary of the buffer's contents |
| `I2cScanner.ScannerApp.Run` | i2c_scanner/main.c:183-205 | returns 0 after the calls `MainCalls` and the log `MainLog`; `i2cFd` is the result of the 100 kHz open, and the buffer is that of the last completed scan |
| `I2cScanner.ToUint8` | i2c_scanner/main.c:134 | the uint8_t step of the row counter stays in 0..255 and does not wrap below 256 |
| `I2cScanner.BitOr` | i2c_scanner/main.c:139 | `x \| y` is at least each operand and at most their sum |
| `I2cScanner.BitOrDisjoint` | i2c_scanner/main.c:139 | or-ing a multiple of 2^k with a value below 2^k adds them |
| `I2cScanner.NibbleOr` | i2c_scanner/main.c:139 | `addrH \| addrL` is 16*row + column |

## Left out

- The SIGTERM handler and `sigaction` are not modelled. `terminationRequired`
  is an input to `Run`, and a signal cannot arrive during a run.
- The I2C driver and `close` are not executed. Their answers are the
  `Transport` oracle of each scan, and the calls made are recorded in a trace.
  - The bus interface identifier `PROJECT_ISU2_I2C` is not modelled.
  - The timing and meaning of the 100 ms timeout are not modelled.
  - The byte a read returns is not modelled.
- `errno` and `strerror`: each error line is a fixed string without the
  error code and its description.
- `Log_Debug` is an append to a sequence of strings, one entry per call. The
  model does no formatting beyond the `%X` and `%02X` conversions used.
- The `ENABLE_SCAN_BUS_SPEED_*` switches are compile-time options. The model
  has all three enabled, as the source ships them.
- `scanResult` is a 128-entry array field of the class, rather than a fresh
  stack array on each call. A scan that stops early therefore leaves the
  previous contents in place, where the C buffer would be uninitialised and
  unread.
- A bus speed `Other(code)` stands only for a code different from those of the
  three named speeds. A named speed passed as its raw code, which `main` never
  does, is not modelled.
- `I2cScanner.ScannerApp.Run`: its `scanResult` postcondition follows from the
  field modelling above. The C program has no such promise.
