/**
 The scanner program: its global state (the bus descriptor), the scan of the
 bus at one speed, the final clean-up and the entry point that runs the scans.
 */
module I2cScanner {
  import opened Report
  import opened Bus

  /** The error logged by the failing open or configuration call, if any. */
  function SetupLog(bus: Transport): (errors: seq<string>)
    ensures |errors| <= 1 && (errors == [] <==> Completes(bus))
  {
    if bus.openFd < 0 then [OpenError]
    else if bus.setSpeedStatus != 0 then [SpeedError]
    else if bus.setTimeoutStatus != 0 then [TimeoutError]
    else []
  }

  /** The grid and summary of a scan whose setup succeeded; nothing otherwise. */
  function ScanOutput(bus: Transport): (output: seq<string>)
    ensures output != [] <==> Completes(bus)
    ensures output != [] ==> output[0] == HeaderIndent
  {
    if Completes(bus) then ScanReport(Classify(bus)) else []
  }

  /** The log written by one scan at `speed` against the driver answers `bus`. */
  function ScanLog(speed: BusSpeed, bus: Transport): (log: seq<string>)
    ensures |log| >= 3 && log[0] == ScanBanner
    ensures log[2] == HeaderIndent <==> Completes(bus)
  {
    SpeedHeader(speed) + SetupLog(bus) + ScanOutput(bus)
  }

  /**
   A scan that stops at a failing open or configuration call logs the speed
   header and one error, and no grid header, grid line or summary.
   */
  lemma EarlyExitLog(speed: BusSpeed, bus: Transport)
    requires !Completes(bus)
    ensures |ScanLog(speed, bus)| == 3 && ScanLog(speed, bus)[..2] == SpeedHeader(speed)
    ensures ScanLog(speed, bus)[2] ==
      if bus.openFd < 0 then OpenError
      else if bus.setSpeedStatus != 0 then SpeedError
      else TimeoutError
    ensures HeaderIndent !in ScanLog(speed, bus) && SummaryIntro !in ScanLog(speed, bus)
  {
  }

  /** The driver calls made by the entry point, starting from descriptor `fd0`. */
  function MainCalls(terminationRequired: bool, buses: BusSpeed -> Transport, fd0: int): (calls: seq<Call>)
    ensures calls != [] && calls[|calls| - 1] == Close(if terminationRequired then fd0 else buses(Standard).openFd)
    ensures !terminationRequired ==> calls[0] == Open
  {
    if terminationRequired then [Close(fd0)]
    else
      ScanCalls(FastPlus, buses(FastPlus)) + ScanCalls(Fast, buses(Fast))
      + ScanCalls(Standard, buses(Standard)) + [Close(buses(Standard).openFd)]
  }

  /** The log written by the entry point. */
  function MainLog(terminationRequired: bool, buses: BusSpeed -> Transport): (log: seq<string>)
    ensures log == [] <==> terminationRequired
    ensures !terminationRequired ==> log[0] == ScanBanner
  {
    if terminationRequired then []
    else ScanLog(FastPlus, buses(FastPlus)) + ScanLog(Fast, buses(Fast)) + ScanLog(Standard, buses(Standard))
  }

  /** The scan result buffer left by the entry point: that of the last scan that completed. */
  function LastResult(terminationRequired: bool, buses: BusSpeed -> Transport, before: seq<Byte>): (result: seq<Byte>)
    ensures terminationRequired ==> result == before
    ensures !Completes(buses(FastPlus)) && !Completes(buses(Fast)) && !Completes(buses(Standard)) ==> result == before
    ensures |before| == 128 ==> |result| == 128
  {
    if terminationRequired then before
    else if Completes(buses(Standard)) then Classify(buses(Standard))
    else if Completes(buses(Fast)) then Classify(buses(Fast))
    else if Completes(buses(FastPlus)) then Classify(buses(FastPlus))
    else before
  }

  /** The speeds passed to set-speed calls in a trace, in order. */
  function SpeedsConfigured(calls: seq<Call>): seq<BusSpeed>
  {
    if calls == [] then []
    else (if calls[0].SetBusSpeed? then [calls[0].speed] else []) + SpeedsConfigured(calls[1..])
  }

  lemma {:induction false} SpeedsConfiguredAppend(s: seq<Call>, t: seq<Call>)
    ensures SpeedsConfigured(s + t) == SpeedsConfigured(s) + SpeedsConfigured(t)
  {
    if s != [] {
      assert (s + t)[1..] == s[1..] + t;
      SpeedsConfiguredAppend(s[1..], t);
    } else {
      assert s + t == t;
    }
  }

  lemma {:induction false} NoSetSpeedConfiguresNothing(calls: seq<Call>)
    requires forall c :: c in calls ==> !c.SetBusSpeed?
    ensures SpeedsConfigured(calls) == []
  {
    if calls != [] {
      assert calls[0] in calls;
      NoSetSpeedConfiguresNothing(calls[1..]);
    }
  }

  /** The speeds set by four consecutive traces, in order. */
  lemma SpeedsOfFour(c1: seq<Call>, c2: seq<Call>, c3: seq<Call>, c4: seq<Call>, s1: seq<BusSpeed>, s2: seq<BusSpeed>, s3: seq<BusSpeed>)
    requires SpeedsConfigured(c1) == s1 && SpeedsConfigured(c2) == s2 && SpeedsConfigured(c3) == s3
    requires SpeedsConfigured(c4) == []
    ensures SpeedsConfigured(c1 + c2 + c3 + c4) == s1 + s2 + s3
  {
    SpeedsConfiguredAppend(c1, c2);
    SpeedsConfiguredAppend(c1 + c2, c3);
    SpeedsConfiguredAppend(c1 + c2 + c3, c4);
  }


  /** A scan sets the bus speed once, to its own speed, exactly when the open succeeded. */
  lemma ScanConfiguresItsSpeed(speed: BusSpeed, bus: Transport)
    ensures SpeedsConfigured(ScanCalls(speed, bus)) == if bus.openFd >= 0 then [speed] else []
  {
    var fd := bus.openFd;
    var setup := SetupCalls(speed, bus);
    SpeedsConfiguredAppend(setup, SweepCalls(bus));
    SweepOrder(fd);
    NoSetSpeedConfiguresNothing(SweepCalls(bus));
    if fd >= 0 {
      SpeedsConfiguredAppend([Open, SetBusSpeed(fd, speed)], setup[2..]);
      NoSetSpeedConfiguresNothing(setup[2..]);
      assert SpeedsConfigured([Open, SetBusSpeed(fd, speed)]) == [speed] by {
        assert [Open, SetBusSpeed(fd, speed)][1..] == [SetBusSpeed(fd, speed)];
        assert [SetBusSpeed(fd, speed)][1..] == [];
      }
      assert setup == [Open, SetBusSpeed(fd, speed)] + setup[2..];
    } else {
      NoSetSpeedConfiguresNothing(setup);
    }
  }

  /**
   Unless termination was requested, the entry point scans at 1 MHz, then
   400 kHz, then 100 kHz (each speed that opened the bus is configured, in
   that order); when it was requested, no scan runs and the only call is the
   final close of the descriptor held before.
   */
  lemma MainSpeedOrder(terminationRequired: bool, buses: BusSpeed -> Transport, fd0: int)
    ensures terminationRequired ==> MainCalls(terminationRequired, buses, fd0) == [Close(fd0)]
    ensures SpeedsConfigured(MainCalls(terminationRequired, buses, fd0)) ==
      if terminationRequired then []
      else
        (if buses(FastPlus).openFd >= 0 then [FastPlus] else [])
        + (if buses(Fast).openFd >= 0 then [Fast] else [])
        + (if buses(Standard).openFd >= 0 then [Standard] else [])
  {
    var calls := MainCalls(terminationRequired, buses, fd0);
    if terminationRequired {
      NoSetSpeedConfiguresNothing(calls);
    } else {
      var c1, c2, c3 := ScanCalls(FastPlus, buses(FastPlus)), ScanCalls(Fast, buses(Fast)), ScanCalls(Standard, buses(Standard));
      var last := [Close(buses(Standard).openFd)];
      ScanConfiguresItsSpeed(FastPlus, buses(FastPlus));
      ScanConfiguresItsSpeed(Fast, buses(Fast));
      ScanConfiguresItsSpeed(Standard, buses(Standard));
      NoSetSpeedConfiguresNothing(last);
      SpeedsOfFour(c1, c2, c3, last,
        if buses(FastPlus).openFd >= 0 then [FastPlus] else [],
        if buses(Fast).openFd >= 0 then [Fast] else [],
        if buses(Standard).openFd >= 0 then [Standard] else []);
    }
  }

  /** The entries logged right after each scan banner: the speed names announced, in order. */
  function SpeedLines(log: seq<string>): seq<string>
  {
    if |log| < 2 then []
    else (if log[0] == ScanBanner then [log[1]] else []) + SpeedLines(log[1..])
  }

  /** The log is nonempty and its last entry is not a banner: it differs from one in length. */
  predicate EndsWithNonBanner(log: seq<string>)
  {
    log != [] && |log[|log| - 1]| != |ScanBanner|
  }

  lemma {:induction false} NoBannerNoSpeedLines(log: seq<string>)
    requires ScanBanner !in log
    ensures SpeedLines(log) == []
  {
    if |log| >= 2 {
      assert log[0] in log;
      NoBannerNoSpeedLines(log[1..]);
    }
  }

  /** Speed names of two logs concatenate, when the first does not end with a banner. */
  lemma {:induction false} SpeedLinesAppend(s: seq<string>, t: seq<string>)
    requires s == [] || EndsWithNonBanner(s)
    ensures SpeedLines(s + t) == SpeedLines(s) + SpeedLines(t)
  {
    if s == [] {
      assert s + t == t;
    } else if |s| == 1 {
      assert (s + t)[1..] == t;
    } else {
      assert (s + t)[1..] == s[1..] + t;
      SpeedLinesAppend(s[1..], t);
    }
  }

  /** A banner, a name, then entries none of which is a banner, announce that one name. */
  lemma BannerThenName(name: string, rest: seq<string>)
    requires name != ScanBanner && ScanBanner !in rest
    ensures SpeedLines([ScanBanner, name] + rest) == [name]
  {
    var log := [ScanBanner, name] + rest;
    assert log[1..] == [name] + rest;
    if rest != [] {
      assert log[1..][1..] == rest;
      NoBannerNoSpeedLines(rest);
    }
  }

  /**
   A scan announces exactly one speed, the name of its own, whether or not it
   completes; its log does not end with a banner.
   */
  lemma ScanAnnouncesItsSpeed(speed: BusSpeed, bus: Transport)
    ensures SpeedLines(ScanLog(speed, bus)) == [SpeedName(speed)]
    ensures EndsWithNonBanner(ScanLog(speed, bus))
  {
    var rest := SetupLog(bus) + ScanOutput(bus);
    if Completes(bus) {
      var table := Classify(bus);
      ReportHasNoBanner(table);
      LastOfAppend(HeaderRow() + GridRows(table, 8), Summary(table));
      LastOfAppend(SpeedHeader(speed) + SetupLog(bus), ScanOutput(bus));
    } else {
      LastOfAppend(SpeedHeader(speed), SetupLog(bus));
    }
    assert ScanBanner !in rest;
    AppendTwo(SpeedHeader(speed), SetupLog(bus), ScanOutput(bus));
    BannerThenName(SpeedName(speed), rest);
  }

  /**
   The entry point announces its scans as "1 MHz", "400 kHz" and "100 kHz", in
   that order, whatever their outcome, and announces none when termination was
   requested.
   */
  lemma MainSpeedLines(terminationRequired: bool, buses: BusSpeed -> Transport)
    ensures SpeedLines(MainLog(terminationRequired, buses)) ==
      if terminationRequired then [] else ["1 MHz\n", "400 kHz\n", "100 kHz\n"]
  {
    if !terminationRequired {
      var l1, l2, l3 := ScanLog(FastPlus, buses(FastPlus)), ScanLog(Fast, buses(Fast)), ScanLog(Standard, buses(Standard));
      ScanAnnouncesItsSpeed(FastPlus, buses(FastPlus));
      ScanAnnouncesItsSpeed(Fast, buses(Fast));
      ScanAnnouncesItsSpeed(Standard, buses(Standard));
      SpeedLinesOfThree(l1, l2, l3, SpeedName(FastPlus), SpeedName(Fast), SpeedName(Standard));
      assert [SpeedName(FastPlus), SpeedName(Fast), SpeedName(Standard)] == ["1 MHz\n", "400 kHz\n", "100 kHz\n"];
    }
  }


  lemma SpeedLinesOfThree(l1: seq<string>, l2: seq<string>, l3: seq<string>, n1: string, n2: string, n3: string)
    requires EndsWithNonBanner(l1) && EndsWithNonBanner(l2)
    requires SpeedLines(l1) == [n1] && SpeedLines(l2) == [n2] && SpeedLines(l3) == [n3]
    ensures SpeedLines(l1 + l2 + l3) == [n1, n2, n3]
  {
    SpeedLinesAppend(l1, l2);
    assert (l1 + l2)[|l1 + l2| - 1] == l2[|l2| - 1];
    SpeedLinesAppend(l1 + l2, l3);
  }


  /** 1 for a scan whose sweep runs, else 0. */
  function Completed(bus: Transport): nat
  {
    if Completes(bus) then 1 else 0
  }

  /**
   The entry point closes one descriptor per completed scan, inside that
   scan, plus one final close of whatever descriptor was held last.
   */
  lemma MainCloseCount(terminationRequired: bool, buses: BusSpeed -> Transport, fd0: int)
    ensures CloseCount(MainCalls(terminationRequired, buses, fd0)) ==
      1 + if terminationRequired then 0
          else Completed(buses(FastPlus)) + Completed(buses(Fast)) + Completed(buses(Standard))
  {
    if terminationRequired {
      assert CloseCount([Close(fd0)]) == 1;
    } else {
      var c1, c2, c3 := ScanCalls(FastPlus, buses(FastPlus)), ScanCalls(Fast, buses(Fast)), ScanCalls(Standard, buses(Standard));
      var last := [Close(buses(Standard).openFd)];
      ScanCloseCount(FastPlus, buses(FastPlus));
      ScanCloseCount(Fast, buses(Fast));
      ScanCloseCount(Standard, buses(Standard));
      CloseCountAppend(c1, c2);
      CloseCountAppend(c1 + c2, c3);
      CloseCountAppend(c1 + c2 + c3, last);
      assert CloseCount(last) == 1;
    }
  }

  /** Every close() in a scan's calls closes the descriptor that scan opened. */
  lemma ScanClosesOnlyItsOwn(speed: BusSpeed, bus: Transport, fd: int)
    requires Close(fd) in ScanCalls(speed, bus)
    ensures fd == bus.openFd && Completes(bus)
  {
    SweepOrder(bus.openFd);
  }

  /**
   A descriptor opened by the 1 MHz scan whose speed or timeout setting
   failed is never closed, provided the two later scans get other descriptors:
   the early returns skip the close, and the final close only closes the
   descriptor of the 100 kHz scan.
   */
  lemma FailedSetupLeaksDescriptor(buses: BusSpeed -> Transport, fd0: int)
    requires buses(FastPlus).openFd >= 0 && !Completes(buses(FastPlus))
    requires buses(Fast).openFd != buses(FastPlus).openFd
    requires buses(Standard).openFd != buses(FastPlus).openFd
    ensures Open in MainCalls(false, buses, fd0)
    ensures Close(buses(FastPlus).openFd) !in MainCalls(false, buses, fd0)
  {
    var fd := buses(FastPlus).openFd;
    var c1, c2, c3 := ScanCalls(FastPlus, buses(FastPlus)), ScanCalls(Fast, buses(Fast)), ScanCalls(Standard, buses(Standard));
    assert MainCalls(false, buses, fd0) == c1 + c2 + c3 + [Close(buses(Standard).openFd)];
    assert c1[0] == Open;
    if Close(fd) in c2 {
      ScanClosesOnlyItsOwn(Fast, buses(Fast), fd);
    }
    if Close(fd) in c3 {
      ScanClosesOnlyItsOwn(Standard, buses(Standard), fd);
    }
    EarlyExitCalls(FastPlus, buses(FastPlus));
  }

  /** The program's state: the bus descriptor, the scan result buffer, the log and the driver calls so far. */
  class ScannerApp {
    /** The descriptor of the bus, -1 until the first open. */
    var i2cFd: int
    /** The 128-entry scan result buffer of PerformScan. */
    const scanResult: array<Byte>
    /** Everything written to the debug log, one entry per write. */
    var log: seq<string>
    /** Every call made into the I2C driver and close(), in order. */
    var calls: seq<Call>

    ghost predicate Valid()
      reads this
    {
      scanResult.Length == 128
    }

    constructor ()
      ensures Valid() && fresh(scanResult)
      ensures i2cFd == -1 && log == [] && calls == []
    {
      i2cFd := -1;
      scanResult := new Byte[128](_ => 0);
      log := [];
      calls := [];
    }

    /** Installing the termination handler is not modelled; the routine always reports success. */
    method InitPeripheralsAndHandlers() returns (status: int)
      ensures status == 0
    {
      status := 0;
    }

    /** Closes whatever descriptor `i2cFd` holds, valid or not. */
    method ClosePeripheralsAndHandlers()
      modifies this`calls
      ensures calls == old(calls) + [Close(i2cFd)]
    {
      calls := calls + [Close(i2cFd)];
    }

    /**
     One scan of the bus at `speed`: the speed header; then open, set the
     speed, set the timeout, each returning early with an error logged on
     failure (without closing the descriptor); then the grid of all 128
     addresses with one 1-byte read per address 1..127, the summary, and the
     close of the descriptor.
     */
    method PerformScan(speed: BusSpeed, bus: Transport)
      requires Valid()
      modifies this`i2cFd, this`log, this`calls, scanResult
      ensures Valid()
      ensures i2cFd == bus.openFd
      ensures calls == old(calls) + ScanCalls(speed, bus)
      ensures log == old(log) + ScanLog(speed, bus)
      ensures Completes(bus) ==> scanResult[..] == Classify(bus)
      ensures !Completes(bus) ==> scanResult[..] == old(scanResult[..])
    {
      log := log + [ScanBanner, SpeedName(speed)];
      var ok := OpenAndConfigure(speed, bus);
      AppendTwo(old(calls), SetupCalls(speed, bus), SweepCalls(bus));
      AppendThree(old(log), SpeedHeader(speed), SetupLog(bus), ScanOutput(bus));
      if !ok {
        assert SweepCalls(bus) == [] && ScanOutput(bus) == [];
        return;
      }
      SweepAndReport(bus);
      SameEntries(scanResult[..], Classify(bus));
    }

    /**
     Opens the bus and sets its speed and its timeout, returning false at the
     first call that fails, after logging its error and without closing.
     */
    method OpenAndConfigure(speed: BusSpeed, bus: Transport) returns (ok: bool)
      modifies this`i2cFd, this`log, this`calls
      ensures ok == Completes(bus) && i2cFd == bus.openFd
      ensures calls == old(calls) + SetupCalls(speed, bus)
      ensures log == old(log) + SetupLog(bus)
    {
      ok := false;
      i2cFd := bus.openFd;
      calls := calls + [Open];
      if i2cFd < 0 {
        log := log + [OpenError];
        return;
      }

      calls := calls + [SetBusSpeed(i2cFd, speed)];
      if bus.setSpeedStatus != 0 {
        log := log + [SpeedError];
        return;
      }

      calls := calls + [SetTimeout(i2cFd, I2cBusTimeoutMs)];
      if bus.setTimeoutStatus != 0 {
        log := log + [TimeoutError];
        return;
      }
      ok := true;
    }

    /**
     The part of a scan after a successful setup: the grid header, the sweep
     of all 128 addresses, the summary, and the close of the descriptor.
     */
    method SweepAndReport(bus: Transport)
      requires Valid() && Completes(bus) && i2cFd == bus.openFd
      modifies this`log, this`calls, scanResult
      ensures calls == old(calls) + SweepCalls(bus)
      ensures log == old(log) + ScanOutput(bus)
      ensures forall a :: 0 <= a < 128 ==> scanResult[a] == Classify(bus)[a]
    {
      ghost var table := Classify(bus);
      ghost var logStart := log;
      PrintHeaderRow();
      ghost var logGrid := log;
      SweepGrid(bus);
      ghost var logSummary := log;
      PrintSummary(table);
      calls := calls + [Close(i2cFd)];
      AppendTwo(old(calls), Probes(i2cFd, 128), [Close(i2cFd)]);
      AppendThree(logStart, HeaderRow(), GridRows(table, 8), Summary(table));
    }

    /**
     The sweep: for each high nibble 0x00..0x70 a grid line, reading every
     address 1..127 once in increasing order and filling the scan result.
     */
    method SweepGrid(bus: Transport)
      requires Valid() && Completes(bus) && i2cFd == bus.openFd
      modifies this`log, this`calls, scanResult
      ensures calls == old(calls) + Probes(i2cFd, 128)
      ensures log == old(log) + GridRows(Classify(bus), 8)
      ensures forall a :: 0 <= a < 128 ==> scanResult[a] == Classify(bus)[a]
    {
      ghost var table := Classify(bus);
      ghost var log0, calls0 := log, calls;
      ghost var row := 0;
      var addrH := 0;
      while addrH < 0x80
        invariant 0 <= row <= 8 && addrH == 16 * row
        invariant SweptRows(table, log0, calls0, row)
      {
        ScanRow(bus, addrH, row, table, log0, calls0);
        addrH := ToUint8(addrH + 0x10);
        row := row + 1;
      }
      assert row == 8;
    }

    /**
     After `row` grid lines: the log holds those lines, the calls hold the
     reads of their addresses, and their result entries match the table.
     */
    ghost predicate SweptRows(table: ScanTable, logGrid: seq<string>, callsGrid: seq<Call>, row: nat)
      requires Valid()
      reads this, scanResult
    {
      && row <= 8
      && log == logGrid + GridRows(table, row)
      && calls == callsGrid + Probes(i2cFd, 16 * row)
      && forall a :: 0 <= a < 16 * row ==> scanResult[a] == table[a]
    }

    /** The grid header: an indent, the labels 00..0F, a line break. */
    method PrintHeaderRow()
      modifies this`log
      ensures log == old(log) + HeaderRow()
    {
      ghost var log0 := log;
      log := log + [HeaderIndent];
      ghost var logLabels := log;
      var addrL := 0;
      while addrL < 0x10
        invariant 0 <= addrL <= 0x10
        invariant log == logLabels + HeaderLabels(addrL)
      {
        AppendTwo(logLabels, HeaderLabels(addrL), [ColumnLabel(addrL)]);
        log := log + [ColumnLabel(addrL)];
        addrL := addrL + 1;
      }
      log := log + [NewLine];
      AppendThree(log0, [HeaderIndent], HeaderLabels(16), [NewLine]);
    }

    /**
     One grid line of the sweep, for the addresses addrH|0x0..addrH|0xF: the
     row label, one probe per address, then a line break.
     */
    method ScanRow(bus: Transport, addrH: nat, ghost row: nat, ghost table: ScanTable,
                   ghost logGrid: seq<string>, ghost callsGrid: seq<Call>)
      requires Valid() && i2cFd == bus.openFd && table == Classify(bus)
      requires row < 8 && addrH == 16 * row
      requires SweptRows(table, logGrid, callsGrid, row)
      modifies this`log, this`calls, scanResult
      ensures SweptRows(table, logGrid, callsGrid, row + 1)
      ensures forall a :: 16 * (row + 1) <= a < 128 ==> scanResult[a] == old(scanResult[a])
    {
      ghost var log0 := log;
      log := log + [AddrLabel(addrH)];
      ProbeColumns(bus, addrH, row, table, callsGrid);
      log := log + [NewLine];
      RowLabelIsAddrLabel(row);
      AppendThree(log0, [RowLabel(row)], RowCells(table, row, 16), [NewLine]);
      AppendTwo(logGrid, GridRows(table, row), GridRow(table, row));
    }

    /**
     The inner loop of a grid line: one probe for each address addrH|0x0 ..
     addrH|0xF, in increasing order, filling the entries of that row and no
     others.
     */
    method ProbeColumns(bus: Transport, addrH: nat, ghost row: nat, ghost table: ScanTable,
                        ghost callsGrid: seq<Call>)
      requires Valid() && i2cFd == bus.openFd && table == Classify(bus)
      requires row < 8 && addrH == 16 * row
      requires calls == callsGrid + Probes(i2cFd, addrH)
      requires forall a :: 0 <= a < addrH ==> scanResult[a] == table[a]
      modifies this`log, this`calls, scanResult
      ensures log == old(log) + RowCells(table, row, 16)
      ensures calls == callsGrid + Probes(i2cFd, addrH + 16)
      ensures forall a :: 0 <= a < addrH + 16 ==> scanResult[a] == table[a]
      ensures forall a :: addrH + 16 <= a < 128 ==> scanResult[a] == old(scanResult[a])
    {
      ghost var logCells := log;
      var addrL := 0;
      while addrL < 0x10
        invariant 0 <= addrL <= 0x10
        invariant log == logCells + RowCells(table, row, addrL)
        invariant calls == callsGrid + Probes(i2cFd, addrH + addrL)
        invariant forall a :: 0 <= a < addrH + addrL ==> scanResult[a] == table[a]
        invariant forall a :: addrH + addrL <= a < 128 ==> scanResult[a] == old(scanResult[a])
      {
        var devAddr := BitOr(addrH, addrL);
        NibbleOr(row, addrL);
        AppendTwo(logCells, RowCells(table, row, addrL), [Cell(table, devAddr)]);
        AppendTwo(callsGrid, Probes(i2cFd, devAddr), if devAddr == 0 then [] else [Read(i2cFd, devAddr, 1)]);
        ProbeAddress(bus, devAddr, table);
        addrL := addrL + 1;
      }
    }

    /**
     One address of the sweep: address 0 gets the blank cell and entry 0
     without a read; any other gets a 1-byte read, then the present cell and
     entry 1 unless the read returned -1, else the absent cell and entry 0.
     */
    method ProbeAddress(bus: Transport, devAddr: Address, ghost table: ScanTable)
      requires Valid() && table == Classify(bus)
      modifies this`log, this`calls, scanResult
      ensures log == old(log) + [Cell(table, devAddr)]
      ensures calls == old(calls) + if devAddr == 0 then [] else [Read(i2cFd, devAddr, 1)]
      ensures scanResult[devAddr] == table[devAddr]
      ensures forall a :: 0 <= a < 128 && a != devAddr ==> scanResult[a] == old(scanResult[a])
    {
      if devAddr == 0 {
        log := log + [NotProbed];
        scanResult[devAddr] := 0;
      } else {
        calls := calls + [Read(i2cFd, devAddr, 1)];
        if bus.read(devAddr) != -1 {
          log := log + [Detection];
          scanResult[devAddr] := 1;
        } else {
          log := log + [NoDetection];
          scanResult[devAddr] := 0;
        }
      }
    }

    /**
     The summary: every address 1..127 whose entry is nonzero, in increasing
     order, or the no-device marker when there is none, then a blank line.
     */
    method PrintSummary(ghost table: ScanTable)
      requires Valid() && forall a :: 0 <= a < 128 ==> scanResult[a] == table[a]
      modifies this`log
      ensures log == old(log) + Summary(table)
    {
      ghost var log0 := log;
      var detectionSuccess := false;
      log := log + [SummaryIntro];
      ghost var logStart := log;
      var devAddr := 1;
      while devAddr < 0x80
        invariant 1 <= devAddr <= 0x80
        invariant log == logStart + SummaryEntries(table, devAddr)
        invariant detectionSuccess <==> SummaryEntries(table, devAddr) != []
      {
        assert SummaryEntries(table, devAddr + 1) ==
          SummaryEntries(table, devAddr) + if table[devAddr] != 0 then [AddrLabel(devAddr)] else [];
        if scanResult[devAddr] != 0 {
          AppendTwo(logStart, SummaryEntries(table, devAddr), [AddrLabel(devAddr)]);
          log := log + [AddrLabel(devAddr)];
          detectionSuccess := true;
        }
        devAddr := devAddr + 1;
      }

      ghost var entries := SummaryEntries(table, 128);
      ghost var marker: seq<string> := [];
      if !detectionSuccess {
        log := log + [NoDevices];
        marker := [NoDevices];
      }
      assert log == logStart + entries + marker;
      log := log + [Trailer];
      AppendFour(log0, [SummaryIntro], entries, marker, [Trailer]);
    }

    /**
     The entry point: unless termination was requested, scans at 1 MHz,
     400 kHz and 100 kHz in that order; then closes the descriptor held last
     and exits with 0.
     */
    method Run(terminationRequired: bool, buses: BusSpeed -> Transport) returns (exitCode: int)
      requires Valid()
      modifies this`i2cFd, this`log, this`calls, scanResult
      ensures Valid() && exitCode == 0
      ensures calls == old(calls) + MainCalls(terminationRequired, buses, old(i2cFd))
      ensures log == old(log) + MainLog(terminationRequired, buses)
      ensures i2cFd == if terminationRequired then old(i2cFd) else buses(Standard).openFd
      ensures scanResult[..] == LastResult(terminationRequired, buses, old(scanResult[..]))
    {
      var stop := terminationRequired;
      var status := InitPeripheralsAndHandlers();
      if status != 0 {
        stop := true;
      }

      if !stop {
        ghost var calls0, log0 := calls, log;
        PerformScan(FastPlus, buses(FastPlus));
        ghost var calls1, log1 := calls, log;
        PerformScan(Fast, buses(Fast));
        ghost var calls2, log2 := calls, log;
        PerformScan(Standard, buses(Standard));
        AppendThree(calls0, ScanCalls(FastPlus, buses(FastPlus)), ScanCalls(Fast, buses(Fast)),
          ScanCalls(Standard, buses(Standard)));
        AppendThree(log0, ScanLog(FastPlus, buses(FastPlus)), ScanLog(Fast, buses(Fast)),
          ScanLog(Standard, buses(Standard)));
      }

      ClosePeripheralsAndHandlers();
      return 0;
    }
  }

  /** Appending two pieces one after the other appends their concatenation. */
  lemma AppendTwo<T>(s: seq<T>, x: seq<T>, y: seq<T>)
    ensures s + x + y == s + (x + y)
  {
  }

  /** Appending three pieces one after another appends their concatenation. */
  lemma AppendThree<T>(s: seq<T>, x: seq<T>, y: seq<T>, z: seq<T>)
    ensures s + x + y + z == s + (x + y + z)
  {
  }

  /** Appending four pieces one after another appends their concatenation. */
  lemma AppendFour<T>(s: seq<T>, w: seq<T>, x: seq<T>, y: seq<T>, z: seq<T>)
    ensures s + w + x + y + z == s + (w + x + y + z)
  {
  }

  /** The last entry of `p + q` is the last entry of the non-empty `q`. */
  lemma LastOfAppend<T>(p: seq<T>, q: seq<T>)
    requires q != []
    ensures (p + q)[|p + q| - 1] == q[|q| - 1]
  {
  }

  /** A buffer that agrees with a scan table entry by entry equals it. */
  lemma SameEntries(s: seq<Byte>, t: ScanTable)
    requires |s| == 128 && forall a :: 0 <= a < 128 ==> s[a] == t[a]
    ensures s == t
  {
  }

  /** The conversion of an int to uint8_t, keeping the low 8 bits. */
  function ToUint8(x: int): (r: int)
    ensures 0 <= r < 0x100
    ensures 0 <= x < 0x100 ==> r == x
  {
    x % 0x100
  }

  /** 2 to the power k. */
  function Pow2(k: nat): (p: nat)
    ensures p >= 1
  {
    if k == 0 then 1 else 2 * Pow2(k - 1)
  }

  /** The bitwise or of two non-negative integers, from the least significant bit up. */
  function BitOr(x: nat, y: nat): (r: nat)
    ensures x <= r && y <= r && r <= x + y
  {
    if x == 0 then y
    else if y == 0 then x
    else 2 * BitOr(x / 2, y / 2) + (if x % 2 == 1 || y % 2 == 1 then 1 else 0)
  }

  /** Or-ing a multiple of 2^k with a value below 2^k adds them: the bits do not overlap. */
  lemma {:induction false} BitOrDisjoint(m: nat, k: nat, y: nat)
    requires y < Pow2(k)
    ensures BitOr(m * Pow2(k), y) == m * Pow2(k) + y
  {
    var x := m * Pow2(k);
    if k == 0 {
      assert y == 0;
    } else if x != 0 && y != 0 {
      var h := Pow2(k - 1);
      assert x == 2 * (m * h);
      assert x / 2 == m * h && x % 2 == 0;
      BitOrDisjoint(m, k - 1, y / 2);
    }
  }

  /** The sweep's address `addrH | addrL` is 16 * row + column. */
  lemma NibbleOr(row: nat, col: nat)
    requires col < 16
    ensures BitOr(16 * row, col) == 16 * row + col
  {
    assert Pow2(4) == 16;
    BitOrDisjoint(row, 4, col);
  }
}
