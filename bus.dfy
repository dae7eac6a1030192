/**
 The I2C master driver as the scanner sees it: the answers it gives (an
 oracle fixed for one scan), the calls the scanner makes on it (a trace), and
 the classification of each probed address from the answer to its read.
 */
module Bus {
  import opened Report

  /** The response timeout configured on the bus, in milliseconds. */
  const I2cBusTimeoutMs := 100

  /**
   What the driver answers during one scan: the descriptor returned by open,
   the status of setting the speed and the timeout (0 is success), and the
   return value of a 1-byte read at each address (-1 is failure).
   */
  datatype Transport = Transport(openFd: int, setSpeedStatus: int, setTimeoutStatus: int, read: int -> int)

  /** One call into the driver or into close(). */
  datatype Call =
    | Open
    | SetBusSpeed(fd: int, speed: BusSpeed)
    | SetTimeout(fd: int, ms: int)
    | Read(fd: int, addr: int, len: int)
    | Close(fd: int)

  /** The bus opened and both configuration calls succeeded, so the sweep runs. */
  predicate Completes(bus: Transport)
  {
    bus.openFd >= 0 && bus.setSpeedStatus == 0 && bus.setTimeoutStatus == 0
  }

  /**
   The scan result of a completed sweep: address 0 is absent without a read;
   any other address is present (1) iff its read did not return -1, else 0.
   */
  function Classify(bus: Transport): (result: ScanTable)
    ensures result[0] == 0
    ensures forall a :: 0 <= a < 128 ==> result[a] == 0 || result[a] == 1
  {
    seq(128, a => if a != 0 && bus.read(a) != -1 then 1 else 0)
  }

  /**
   The result entry of address 0 is 0; that of every other address is 1 iff
   its read returned something other than -1, and 0 iff it returned -1.
   */
  lemma ClassifyMeans(bus: Transport)
    ensures Classify(bus)[0] == 0
    ensures forall a :: 1 <= a < 128 ==>
      (Classify(bus)[a] == 1 <==> bus.read(a) != -1) && (Classify(bus)[a] == 0 <==> bus.read(a) == -1)
  {
  }

  /**
   Two sweeps whose reads fail at the same addresses give the same result,
   whatever else differs between them (descriptor, values returned).
   */
  lemma ClassifyDependsOnlyOnReadFailures(b1: Transport, b2: Transport)
    requires forall a :: 1 <= a < 128 ==> (b1.read(a) == -1 <==> b2.read(a) == -1)
    ensures Classify(b1) == Classify(b2)
  {
    forall a | 0 <= a < 128
      ensures Classify(b1)[a] == Classify(b2)[a]
    {
      if a != 0 {
        assert b1.read(a) == -1 <==> b2.read(a) == -1;
      }
    }
  }

  /** The reads of the sweep for the addresses 1..n-1; address 0 is never read. */
  function Probes(fd: int, n: nat): (probes: seq<Call>)
    ensures |probes| == if n == 0 then 0 else n - 1
  {
    if n <= 1 then [] else Probes(fd, n - 1) + [Read(fd, n - 1, 1)]
  }

  /** The open and configuration calls of one scan, stopping at the first that fails. */
  function SetupCalls(speed: BusSpeed, bus: Transport): (calls: seq<Call>)
    ensures 1 <= |calls| <= 3 && calls[0] == Open
    ensures |calls| == 3 <==> bus.openFd >= 0 && bus.setSpeedStatus == 0
  {
    var fd := bus.openFd;
    if fd < 0 then [Open]
    else if bus.setSpeedStatus != 0 then [Open, SetBusSpeed(fd, speed)]
    else [Open, SetBusSpeed(fd, speed), SetTimeout(fd, I2cBusTimeoutMs)]
  }

  /** The calls after a successful setup: the sweep reads, then the close; none after a failed one. */
  function SweepCalls(bus: Transport): (calls: seq<Call>)
    ensures calls != [] <==> Completes(bus)
    ensures calls != [] ==> calls[|calls| - 1] == Close(bus.openFd)
  {
    if Completes(bus) then Probes(bus.openFd, 128) + [Close(bus.openFd)] else []
  }

  /** The driver calls of one scan. */
  function ScanCalls(speed: BusSpeed, bus: Transport): (calls: seq<Call>)
    ensures |calls| >= 1 && calls[0] == Open
    ensures Completes(bus) <==> |calls| > 3
  {
    SetupCalls(speed, bus) + SweepCalls(bus)
  }

  /** The i-th read of the sweep is a 1-byte read at address i+1. */
  lemma {:induction false} ProbesEnumerate(fd: int, n: nat)
    ensures |Probes(fd, n)| == if n == 0 then 0 else n - 1
    ensures forall i :: 0 <= i < |Probes(fd, n)| ==> Probes(fd, n)[i] == Read(fd, i + 1, 1)
  {
    if n > 1 {
      ProbesEnumerate(fd, n - 1);
    }
  }

  /**
   The sweep reads every address 1..127 exactly once with a 1-byte read, in
   strictly increasing order, and never reads address 0.
   */
  lemma SweepOrder(fd: int)
    ensures |Probes(fd, 128)| == 127
    ensures forall i, j :: 0 <= i < j < 127 ==>
      Probes(fd, 128)[i].Read? && Probes(fd, 128)[j].Read? && Probes(fd, 128)[i].addr < Probes(fd, 128)[j].addr
    ensures forall c :: c in Probes(fd, 128) ==> c.Read? && c.fd == fd && c.len == 1 && 1 <= c.addr < 128
    ensures forall a :: 1 <= a < 128 ==> Read(fd, a, 1) in Probes(fd, 128)
    ensures Read(fd, 0, 1) !in Probes(fd, 128)
  {
    var p := Probes(fd, 128);
    ProbesEnumerate(fd, 128);
    forall a | 1 <= a < 128
      ensures Read(fd, a, 1) in p
    {
      assert p[a - 1] == Read(fd, a, 1);
    }
  }

  /** The number of close() calls in a trace. */
  function CloseCount(calls: seq<Call>): nat
  {
    if calls == [] then 0
    else (if calls[0].Close? then 1 else 0) + CloseCount(calls[1..])
  }

  lemma {:induction false} CloseCountAppend(s: seq<Call>, t: seq<Call>)
    ensures CloseCount(s + t) == CloseCount(s) + CloseCount(t)
  {
    if s != [] {
      assert (s + t)[1..] == s[1..] + t;
      CloseCountAppend(s[1..], t);
    } else {
      assert s + t == t;
    }
  }

  lemma {:induction false} NoCloseCountsZero(calls: seq<Call>)
    requires forall c :: c in calls ==> !c.Close?
    ensures CloseCount(calls) == 0
  {
    if calls != [] {
      assert calls[0] in calls;
      NoCloseCountsZero(calls[1..]);
    }
  }

  /**
   A scan closes its descriptor once, as its last call, when the sweep runs,
   and never closes anything when it stops early.
   */
  lemma ScanCloseCount(speed: BusSpeed, bus: Transport)
    ensures CloseCount(ScanCalls(speed, bus)) == if Completes(bus) then 1 else 0
    ensures Completes(bus) ==> ScanCalls(speed, bus)[|ScanCalls(speed, bus)| - 1] == Close(bus.openFd)
  {
    var fd := bus.openFd;
    NoCloseCountsZero(SetupCalls(speed, bus));
    CloseCountAppend(SetupCalls(speed, bus), SweepCalls(bus));
    if Completes(bus) {
      SweepOrder(fd);
      NoCloseCountsZero(Probes(fd, 128));
      CloseCountAppend(Probes(fd, 128), [Close(fd)]);
      assert CloseCount([Close(fd)]) == 1;
    } else {
      assert CloseCount(SweepCalls(bus)) == 0;
    }
  }

  /**
   A scan that stops early makes no read and no close; when open succeeded
   but a configuration call failed, the open descriptor is left open.
   */
  lemma EarlyExitCalls(speed: BusSpeed, bus: Transport)
    requires !Completes(bus)
    ensures forall c :: c in ScanCalls(speed, bus) ==> !c.Read? && !c.Close?
    ensures bus.openFd < 0 ==> ScanCalls(speed, bus) == [Open]
    ensures bus.openFd >= 0 ==> Close(bus.openFd) !in ScanCalls(speed, bus)
  {
  }

  /**
   A completed scan opens, sets the speed it was given, sets the 100 ms
   timeout, then makes the sweep reads and closes the descriptor.
   */
  lemma CompletedScanCalls(speed: BusSpeed, bus: Transport)
    requires Completes(bus)
    ensures |ScanCalls(speed, bus)| == 131
    ensures ScanCalls(speed, bus)[..3] ==
      [Open, SetBusSpeed(bus.openFd, speed), SetTimeout(bus.openFd, I2cBusTimeoutMs)]
    ensures forall i :: 3 <= i < 130 ==> ScanCalls(speed, bus)[i] == Read(bus.openFd, i - 2, 1)
    ensures ScanCalls(speed, bus)[130] == Close(bus.openFd)
  {
    ProbesEnumerate(bus.openFd, 128);
  }
}
