/** `RusbHidManager`: the libusb device manager. It scans the bus once, opening every
    interesting device and starting a reader for it, keeps a `Vec<ManagedDevice>` and a
    map of running readers keyed by (vendor, product), and runs a monitor that compares
    the bus with the pairs it saw on the previous tick. libusb is an input: an
    enumeration is the error `context.devices()` reports or the devices on the bus, and
    each device carries the answers its opened handle gives. The event channel is the
    sequence `events` of what was sent on it. */
module RusbHid {
  import opened Common
  import opened Formatting
  import opened ForeignInstrumentsTypes
  import opened DeviceList
  import opened DeviceReader
  import opened UsbEndpoints

  // ---- Interest ----

  /** `is_native_instruments_device`: the product id plays no part. */
  function IsNativeInstrumentsDevice(vid: u16, pid: u16): bool
  {
    vid == 0x17cc
  }

  /** `is_interesting_device`: Native Instruments, M-Audio, Focusrite or Arturia. */
  function IsInterestingDevice(vid: u16, pid: u16): bool
  {
    IsNativeInstrumentsDevice(vid, pid) || vid == 0x0763 || vid == 0x1235 || vid == 0x1bcf
  }

  // ---- Opening a device ----

  /** The answers the handle `open_device_with_vid_pid` returns gives to the calls the
      manager makes on it: `active_config_descriptor` (none when it fails),
      `kernel_driver_active`, `detach_kernel_driver` and `claim_interface` (each an error
      message, or none when the call succeeds). */
  datatype Handle = Handle(
    config: Option<ConfigDescriptor>,
    kernelDriverActive: Result<bool, string>,
    detachError: Option<string>,
    claimError: Option<string>)

  /** `RusbDeviceReader`: the interface and endpoint a reader reads from. Its stop flag and
      thread handle are not modelled. */
  datatype ReaderEntry = ReaderEntry(interface: byte, endpoint: byte)

  /** The calls `open_and_read_device` makes, in the order it may make them. */
  datatype UsbCall = CallOpen | CallFindEndpoint | CallKernelDriverActive | CallDetach | CallClaim | CallStartReader

  /** `kernel_driver_active(..).unwrap_or(false)`: an error counts as no driver. */
  predicate MustDetach(active: Result<bool, string>)
  {
    active.Ok? && active.value
  }

  /** The step at which an open stops. */
  datatype OpenFailure = NotFound | NoEndpoint | DetachFailed(message: string) | ClaimFailed(message: string)

  /** The error `open_and_read_device` returns for a failure. */
  function FailureMessage(id: DeviceId, f: OpenFailure): string
  {
    match f
    case NotFound => "Device " + PairHex(id) + " not found"
    case NoEndpoint => "No interrupt IN endpoint found for " + PairHex(id)
    case DetachFailed(message) => message
    case ClaimFailed(message) => message
  }

  /** `open_and_read_device`: the reader it starts, or the first step that fails. */
  function OpenOutcome(handle: Option<Handle>): Result<ReaderEntry, OpenFailure>
  {
    if handle.None? then Err(NotFound)
    else
      var h := handle.value;
      match FindInterruptEndpoint(h.config)
      case None => Err(NoEndpoint)
      case Some((interface, endpoint)) =>
        if MustDetach(h.kernelDriverActive) && h.detachError.Some? then Err(DetachFailed(h.detachError.value))
        else if h.claimError.Some? then Err(ClaimFailed(h.claimError.value))
        else Ok(ReaderEntry(interface, endpoint))
  }

  /** The calls `open_and_read_device` makes before it returns. */
  function OpenCalls(handle: Option<Handle>): seq<UsbCall>
  {
    if handle.None? then [CallOpen]
    else
      var h := handle.value;
      if FindInterruptEndpoint(h.config).None? then [CallOpen, CallFindEndpoint]
      else
        var queried := [CallOpen, CallFindEndpoint, CallKernelDriverActive];
        var detached := if MustDetach(h.kernelDriverActive) then queried + [CallDetach] else queried;
        if MustDetach(h.kernelDriverActive) && h.detachError.Some? then detached
        else if h.claimError.Some? then detached + [CallClaim]
        else detached + [CallClaim, CallStartReader]
  }

  /** Every step of a full open, the detach included only when the handle reports an
      active kernel driver. */
  function AllSteps(handle: Option<Handle>): seq<UsbCall>
  {
    if handle.Some? && MustDetach(handle.value.kernelDriverActive)
    then [CallOpen, CallFindEndpoint, CallKernelDriverActive, CallDetach, CallClaim, CallStartReader]
    else [CallOpen, CallFindEndpoint, CallKernelDriverActive, CallClaim, CallStartReader]
  }

  // ---- Bookkeeping ----

  /** A device on the bus: its ids, whether `device_descriptor()` succeeds, and what
      `open_device_with_vid_pid` returns for its ids. */
  datatype BusDevice = BusDevice(id: DeviceId, descriptorReadable: bool, handle: Option<Handle>)

  /** `context.devices()`. */
  type BusEnumeration = Result<seq<BusDevice>, string>

  /** The manager's device list, readers map and the events sent so far. */
  datatype Bookkeeping = Bookkeeping(devices: seq<ManagedDevice>, readers: map<DeviceId, ReaderEntry>, events: seq<Event>)

  /** The device considered by the scan and by the monitor: readable and interesting. */
  predicate Wanted(d: BusDevice)
  {
    d.descriptorReadable && IsInterestingDevice(d.id.vendorId, d.id.productId)
  }

  /** The entry the scan pushes for a device it opened. */
  function NewEntry(id: DeviceId): ManagedDevice
  {
    ManagedDevice(DisplayName(id), id.vendorId, id.productId, Active)
  }

  /** One iteration of `scan_initial_devices`. */
  function ScanStep(s: Bookkeeping, d: BusDevice): Bookkeeping
  {
    if !Wanted(d) then s
    else match OpenOutcome(d.handle)
      case Err(_) => s
      case Ok(entry) =>
        Bookkeeping(s.devices + [NewEntry(d.id)], s.readers[d.id := entry], s.events + [DeviceConnected(d.id)])
  }

  /** The bookkeeping after the scan has visited `devs` in order. */
  function ScanSpec(s: Bookkeeping, devs: seq<BusDevice>): Bookkeeping
    decreases |devs|
  {
    if devs == [] then s else ScanStep(ScanSpec(s, devs[..|devs| - 1]), devs[|devs| - 1])
  }

  /** The ids of the devices of `devs` the scan opens, in order, repeats included. */
  function Opened(devs: seq<BusDevice>): seq<DeviceId>
    decreases |devs|
  {
    if devs == [] then []
    else
      var d := devs[|devs| - 1];
      Opened(devs[..|devs| - 1]) + (if Wanted(d) && OpenOutcome(d.handle).Ok? then [d.id] else [])
  }

  /** One new entry per identifier, in order. */
  function NewEntries(ids: seq<DeviceId>): (r: seq<ManagedDevice>)
    ensures |r| == |ids| && forall i :: 0 <= i < |ids| ==> r[i] == NewEntry(ids[i])
  {
    seq(|ids|, i requires 0 <= i < |ids| => NewEntry(ids[i]))
  }

  // ---- Monitor ----

  /** The pairs a monitor tick records in `current_devices`. */
  function Present(devs: seq<BusDevice>): set<DeviceId>
    decreases |devs|
  {
    if devs == [] then {}
    else
      var d := devs[|devs| - 1];
      Present(devs[..|devs| - 1]) + (if Wanted(d) then {d.id} else {})
  }

  /** The `DeviceConnected` events of a tick: one for every wanted device on the bus whose
      pair was not known on the previous tick, in bus order, repeats included. */
  function Arrivals(known: set<DeviceId>, devs: seq<BusDevice>): seq<Event>
    decreases |devs|
  {
    if devs == [] then []
    else
      var d := devs[|devs| - 1];
      Arrivals(known, devs[..|devs| - 1]) + (if Wanted(d) && d.id !in known then [DeviceConnected(d.id)] else [])
  }

  /** The pairs known when tick `i` of a monitor run starts: none before the first tick,
      then those present on the tick before. */
  function KnownBefore(ticks: seq<BusEnumeration>, i: nat): set<DeviceId>
    requires i <= |ticks| && (i > 0 ==> ticks[i - 1].Ok?)
  {
    if i == 0 then {} else Present(ticks[i - 1].value)
  }

  /** `order` lists, once each, the pairs that were known and are not present in `devs`. */
  ghost predicate TickDepartures(known: set<DeviceId>, devs: seq<BusDevice>, order: seq<DeviceId>)
  {
    Distinct(order) && forall id :: id in order <==> id in known && id !in Present(devs)
  }

  /** The first `|orders|` ticks of a monitor run enumerated the bus, and `orders[i]` lists
      the pairs known at the start of tick `i` and gone from its enumeration. */
  ghost predicate DepartureOrders(ticks: seq<BusEnumeration>, orders: seq<seq<DeviceId>>)
  {
    && |orders| <= |ticks|
    && (forall i :: 0 <= i < |orders| ==> ticks[i].Ok?)
    && forall i :: 0 <= i < |orders| ==> TickDepartures(KnownBefore(ticks, i), ticks[i].value, orders[i])
  }

  /** The events the first `|orders|` ticks of a monitor run send: each tick's arrivals,
      then its departures in the order `orders[i]`. */
  function MonitorEvents(ticks: seq<BusEnumeration>, orders: seq<seq<DeviceId>>): seq<Event>
    requires |orders| <= |ticks| && forall i :: 0 <= i < |orders| ==> ticks[i].Ok?
    decreases |orders|
  {
    if orders == [] then []
    else
      var n := |orders| - 1;
      MonitorEvents(ticks, orders[..n]) + Arrivals(KnownBefore(ticks, n), ticks[n].value) + DisconnectedEvents(orders[n])
  }

  class RusbHidManager {
    var devices: seq<ManagedDevice>
    var readers: map<DeviceId, ReaderEntry>
    var events: seq<Event>
    var running: bool

    function Snapshot(): Bookkeeping
      reads this
    {
      Bookkeeping(devices, readers, events)
    }

    constructor ()
      ensures devices == [] && readers == map[] && events == [] && running
    {
      devices := [];
      readers := map[];
      events := [];
      running := true;
    }

    /** `start_reader_thread`: the entry for the pair is inserted, replacing any earlier
        one. What the reader then sends is `ReaderEvents` under `RetryOnTimeout`. */
    method StartReaderThread(id: DeviceId, interface: byte, endpoint: byte)
      modifies this
      ensures readers == old(readers)[id := ReaderEntry(interface, endpoint)]
      ensures devices == old(devices) && events == old(events) && running == old(running)
    {
      readers := readers[id := ReaderEntry(interface, endpoint)];
    }

    /** `stop_reader_thread`: the entry for the pair, if any, is removed. */
    method StopReaderThread(id: DeviceId)
      modifies this
      ensures readers == old(readers) - {id}
      ensures devices == old(devices) && events == old(events) && running == old(running)
    {
      if id in readers {
        readers := readers - {id};
      }
    }

    /** `open_and_read_device`, with the calls it makes on the handle. */
    method OpenAndReadDevice(id: DeviceId, handle: Option<Handle>) returns (r: Result<(), string>, ghost calls: seq<UsbCall>)
      modifies this
      ensures calls == OpenCalls(handle)
      ensures r.Ok? <==> OpenOutcome(handle).Ok?
      ensures r.Err? ==> r.error == FailureMessage(id, OpenOutcome(handle).error)
      ensures OpenOutcome(handle).Ok? ==> readers == old(readers)[id := OpenOutcome(handle).value]
      ensures OpenOutcome(handle).Err? ==> readers == old(readers)
      ensures devices == old(devices) && events == old(events) && running == old(running)
    {
      calls := [CallOpen];
      if handle.None? {
        return Err(FailureMessage(id, NotFound)), calls;
      }
      var device := handle.value;
      calls := calls + [CallFindEndpoint];
      var endpointResult := FindInterruptEndpointLoop(device.config);
      if endpointResult.None? {
        return Err(FailureMessage(id, NoEndpoint)), calls;
      }
      var (interface, endpoint) := endpointResult.value;
      calls := calls + [CallKernelDriverActive];
      var kernelDriverActive := device.kernelDriverActive;
      if kernelDriverActive.Ok? && kernelDriverActive.value {
        calls := calls + [CallDetach];
        if device.detachError.Some? {
          return Err(FailureMessage(id, DetachFailed(device.detachError.value))), calls;
        }
      }
      calls := calls + [CallClaim];
      if device.claimError.Some? {
        return Err(FailureMessage(id, ClaimFailed(device.claimError.value))), calls;
      }
      calls := calls + [CallStartReader];
      StartReaderThread(id, interface, endpoint);
      return Ok(()), calls;
    }

    /** One iteration of `scan_initial_devices`. */
    method ScanDevice(d: BusDevice)
      modifies this
      ensures Snapshot() == ScanStep(old(Snapshot()), d) && running == old(running)
    {
      if !d.descriptorReadable {
        return;
      }
      if IsInterestingDevice(d.id.vendorId, d.id.productId) {
        var outcome, _ := OpenAndReadDevice(d.id, d.handle);
        if outcome.Ok? {
          devices := devices + [NewEntry(d.id)];
          events := events + [DeviceConnected(d.id)];
        }
      }
    }

    /** `scan_initial_devices`; the enumeration error is returned as is. */
    method ScanInitialDevices(enumeration: BusEnumeration) returns (r: Result<(), string>)
      modifies this
      ensures enumeration.Err? ==> r == Err(enumeration.error) && Snapshot() == old(Snapshot())
      ensures enumeration.Ok? ==> r == Ok(()) && Snapshot() == ScanSpec(old(Snapshot()), enumeration.value)
      ensures running == old(running)
    {
      if enumeration.Err? {
        return Err(enumeration.error);
      }
      var devs := enumeration.value;
      for i := 0 to |devs|
        invariant Snapshot() == ScanSpec(old(Snapshot()), devs[..i]) && running == old(running)
      {
        assert devs[..i + 1][..i] == devs[..i];
        ScanDevice(devs[i]);
      }
      assert devs[..|devs|] == devs;
      return Ok(());
    }

    /** One tick of the monitor thread, given the pairs known from the previous tick. An
        enumeration error makes the thread's `unwrap` panic: no event, and no next tick.
        Otherwise the tick sends the arrivals, then a `DeviceDisconnected` for each known
        pair that is gone, in the map's iteration order `order`, and returns the pairs now
        present. The device list and the readers are not touched. */
    method MonitorTick(known: set<DeviceId>, enumeration: BusEnumeration)
      returns (current: Option<set<DeviceId>>, ghost order: seq<DeviceId>)
      modifies this
      ensures devices == old(devices) && readers == old(readers) && running == old(running)
      ensures enumeration.Err? ==> current.None? && events == old(events)
      ensures enumeration.Ok? ==>
        && current == Some(Present(enumeration.value))
        && TickDepartures(known, enumeration.value, order)
        && |order| == |known - Present(enumeration.value)|
        && events == old(events) + Arrivals(known, enumeration.value) + DisconnectedEvents(order)
    {
      order := [];
      if enumeration.Err? {
        return None, order;
      }
      var currentDevices := ReportArrivals(known, enumeration.value);
      order := ReportDepartures(known - currentDevices);
      return Some(currentDevices), order;
    }

    /** The first loop of a tick: collect the interesting pairs present and announce those
        not known before. */
    method ReportArrivals(known: set<DeviceId>, devs: seq<BusDevice>) returns (currentDevices: set<DeviceId>)
      modifies this
      ensures devices == old(devices) && readers == old(readers) && running == old(running)
      ensures currentDevices == Present(devs)
      ensures events == old(events) + Arrivals(known, devs)
    {
      currentDevices := {};
      for i := 0 to |devs|
        invariant currentDevices == Present(devs[..i])
        invariant events == old(events) + Arrivals(known, devs[..i])
        invariant devices == old(devices) && readers == old(readers) && running == old(running)
      {
        assert devs[..i + 1][..i] == devs[..i];
        var d := devs[i];
        if d.descriptorReadable && IsInterestingDevice(d.id.vendorId, d.id.productId) {
          currentDevices := currentDevices + {d.id};
          if d.id !in known {
            events := events + [DeviceConnected(d.id)];
          }
        }
      }
      assert devs[..|devs|] == devs;
    }

    /** The second loop of a tick: announce the departure of every pair in `gone`, in an
        unspecified order. */
    method ReportDepartures(gone: set<DeviceId>) returns (ghost order: seq<DeviceId>)
      modifies this
      ensures devices == old(devices) && readers == old(readers) && running == old(running)
      ensures Distinct(order)
      ensures forall id :: id in order <==> id in gone
      ensures |order| == |gone|
      ensures events == old(events) + DisconnectedEvents(order)
    {
      order := [];
      var disconnected := gone;
      while disconnected != {}
        invariant Departed(gone, disconnected, order)
        invariant events == old(events) + DisconnectedEvents(order)
        invariant devices == old(devices) && readers == old(readers) && running == old(running)
        decreases disconnected
      {
        var id :| id in disconnected;
        DepartStep(gone, disconnected, order, id);
        events := events + [DeviceDisconnected(id)];
        order := order + [id];
        disconnected := disconnected - {id};
      }
    }

    /** Tick `i` of a monitor run whose earlier ticks met their departures in `orders` and
        whose events follow `start`. */
    method MonitorRound(known: set<DeviceId>, ticks: seq<BusEnumeration>, i: nat, ghost orders: seq<seq<DeviceId>>, ghost start: seq<Event>)
      returns (current: Option<set<DeviceId>>, ghost order: seq<DeviceId>)
      requires i == |orders| < |ticks| && DepartureOrders(ticks, orders) && known == KnownBefore(ticks, i)
      requires events == start + MonitorEvents(ticks, orders)
      modifies this
      ensures devices == old(devices) && readers == old(readers) && running == old(running)
      ensures current.None? ==> ticks[|orders|].Err? && events == old(events)
      ensures current.Some? ==>
        && ticks[|orders|].Ok?
        && DepartureOrders(ticks, orders + [order])
        && events == start + MonitorEvents(ticks, orders + [order])
        && current.value == KnownBefore(ticks, |orders| + 1)
    {
      current, order := MonitorTick(known, ticks[i]);
      if current.Some? {
        MonitorStep(ticks, orders, order);
        AppendRegroup(start, MonitorEvents(ticks, orders), Arrivals(known, ticks[i].value), DisconnectedEvents(order));
      }
    }

    /** The monitor thread of `start_monitoring`, over the enumerations its ticks see
        while `running` stays set: `known` starts empty and each tick replaces it with
        the pairs present; `orders[i]` is the order in which tick `i` met its departed
        pairs. Returns the pairs known when the loop ends, or none when a tick's
        enumeration fails, which ends the run after the ticks before it. */
    method Monitor(ticks: seq<BusEnumeration>) returns (r: Option<set<DeviceId>>, ghost orders: seq<seq<DeviceId>>)
      modifies this
      ensures devices == old(devices) && readers == old(readers) && running == old(running)
      ensures DepartureOrders(ticks, orders)
      ensures events == old(events) + MonitorEvents(ticks, orders)
      ensures !running ==> r == Some({}) && orders == []
      ensures running && r.None? ==> |orders| < |ticks| && ticks[|orders|].Err?
      ensures running && r.Some? ==> |orders| == |ticks|
      ensures r.Some? ==> r.value == KnownBefore(ticks, |orders|)
    {
      var known: set<DeviceId> := {};
      orders := [];
      var i := 0;
      while running && i < |ticks|
        invariant i <= |ticks| && |orders| == i
        invariant devices == old(devices) && readers == old(readers) && running == old(running)
        invariant !running ==> i == 0
        invariant DepartureOrders(ticks, orders)
        invariant events == old(events) + MonitorEvents(ticks, orders)
        invariant known == KnownBefore(ticks, i)
      {
        var current, order := MonitorRound(known, ticks, i, orders, old(events));
        if current.None? {
          return None, orders;
        }
        known := current.value;
        orders := orders + [order];
        i := i + 1;
      }
      return Some(known), orders;
    }

    /** `stop_monitoring`. */
    method StopMonitoring()
      modifies this
      ensures !running && Snapshot() == old(Snapshot())
    {
      running := false;
    }

    /** `get_devices`. */
    method GetDevices() returns (r: seq<ManagedDevice>)
      ensures r == devices
    {
      r := devices;
    }

    /** `update_device_state`: the first entry with these ids gets the state. */
    method UpdateDeviceState(vendorId: u16, productId: u16, state: DeviceState)
      modifies this
      ensures devices == UpdateFirst(old(devices), DeviceId(vendorId, productId), state)
      ensures readers == old(readers) && events == old(events) && running == old(running)
    {
      devices := UpdateFirstMatch(devices, DeviceId(vendorId, productId), state);
    }
  }

  /** `RusbHidManager::new`, given the error `Context::new` reports, if any. */
  method NewRusbHidManager(contextError: Option<string>) returns (r: Result<RusbHidManager, string>)
    ensures contextError.Some? ==> r == Err(contextError.value)
    ensures contextError.None? ==>
      (r.Ok? && fresh(r.value) && r.value.devices == [] && r.value.readers == map[] && r.value.events == [] && r.value.running)
  {
    if contextError.Some? {
      return Err(contextError.value);
    }
    var m := new RusbHidManager();
    return Ok(m);
  }

  /** The departure loop of a monitor tick has reported, once each and in `order`, the
      pairs of `gone` still missing from `pending`. */
  ghost predicate Departed(gone: set<DeviceId>, pending: set<DeviceId>, order: seq<DeviceId>)
  {
    && pending <= gone
    && |order| + |pending| == |gone|
    && Distinct(order)
    && forall id :: id in order <==> id in gone && id !in pending
  }

  /** Reporting one more pending pair keeps the departure loop consistent. */
  lemma DepartStep(gone: set<DeviceId>, pending: set<DeviceId>, order: seq<DeviceId>, id: DeviceId)
    requires id in pending && Departed(gone, pending, order)
    ensures Departed(gone, pending - {id}, order + [id])
    ensures DisconnectedEvents(order) + [DeviceDisconnected(id)] == DisconnectedEvents(order + [id])
  {
    var o := order + [id];
    assert id !in order;
    forall a, b | 0 <= a < b < |o|
      ensures o[a] != o[b]
    {
      if b == |order| {
        assert o[a] == order[a];
      } else {
        assert o[a] == order[a] && o[b] == order[b];
      }
    }
  }

  // ---- Properties ----

  /** Native Instruments is vendor 0x17cc whatever the product; the interesting vendors
      are Native Instruments, M-Audio, Focusrite and Arturia, whatever the product. */
  lemma InterestPredicates(vid: u16, pid: u16, otherPid: u16)
    ensures IsNativeInstrumentsDevice(vid, pid) <==> vid == 0x17cc
    ensures IsInterestingDevice(vid, pid) <==> vid in {0x17cc, 0x0763, 0x1235, 0x1bcf}
    ensures IsInterestingDevice(vid, pid) == IsInterestingDevice(vid, otherPid)
    ensures IsNativeInstrumentsDevice(vid, pid) ==> IsInterestingDevice(vid, pid)
  {
  }

  /** The steps of an open run in their fixed order and stop at the first failure: a
      reader is started exactly when every step succeeds, the detach is attempted only
      when an active kernel driver is reported, and a failed open reports the error of
      the step it stopped at. */
  lemma OpenOrder(handle: Option<Handle>)
    ensures var calls := OpenCalls(handle);
      && calls <= AllSteps(handle)
      && (OpenOutcome(handle).Ok? <==> calls == AllSteps(handle))
      && (CallStartReader in calls <==> OpenOutcome(handle).Ok?)
      && (CallDetach in calls ==> handle.Some? && MustDetach(handle.value.kernelDriverActive))
  {
  }

  /** Which failure an open reports, by the step it stopped at, and the message each
      failure carries. */
  lemma OpenErrors(id: DeviceId, handle: Option<Handle>)
    ensures handle.None? ==> OpenOutcome(handle) == Err(NotFound)
    ensures handle.Some? && FindInterruptEndpoint(handle.value.config).None? ==> OpenOutcome(handle) == Err(NoEndpoint)
    ensures handle.Some? && FindInterruptEndpoint(handle.value.config).Some? ==>
      var h := handle.value;
      var (interface, endpoint) := FindInterruptEndpoint(h.config).value;
      && (MustDetach(h.kernelDriverActive) && h.detachError.Some? ==> OpenOutcome(handle) == Err(DetachFailed(h.detachError.value)))
      && (!(MustDetach(h.kernelDriverActive) && h.detachError.Some?) && h.claimError.Some? ==>
            OpenOutcome(handle) == Err(ClaimFailed(h.claimError.value)))
      && (!(MustDetach(h.kernelDriverActive) && h.detachError.Some?) && h.claimError.None? ==>
            OpenOutcome(handle) == Ok(ReaderEntry(interface, endpoint)))
    ensures FailureMessage(id, NotFound) == "Device " + HexZeroPad4(id.vendorId) + ":" + HexZeroPad4(id.productId) + " not found"
    ensures FailureMessage(id, NoEndpoint) == "No interrupt IN endpoint found for " + HexZeroPad4(id.vendorId) + ":" + HexZeroPad4(id.productId)
  {
  }

  /** The scan pushes one `Active` entry and sends one `DeviceConnected` for each device it
      opens, in bus order, and starts a reader under each of their pairs; nothing else of
      the bookkeeping changes. */
  lemma {:induction false} ScanSummary(s: Bookkeeping, devs: seq<BusDevice>)
    ensures var r := ScanSpec(s, devs);
      && r.devices == s.devices + NewEntries(Opened(devs))
      && r.events == s.events + ConnectedEvents(Opened(devs))
      && (forall id :: id in r.readers <==> id in s.readers || id in Opened(devs))
      && (forall id :: id in s.readers && id !in Opened(devs) ==> r.readers[id] == s.readers[id])
    decreases |devs|
  {
    if devs != [] {
      var pre := devs[..|devs| - 1];
      var d := devs[|devs| - 1];
      ScanSummary(s, pre);
      var o := Opened(pre);
      if Wanted(d) && OpenOutcome(d.handle).Ok? {
        assert Opened(devs) == o + [d.id];
        assert NewEntries(o + [d.id]) == NewEntries(o) + [NewEntry(d.id)];
        assert ConnectedEvents(o + [d.id]) == ConnectedEvents(o) + [DeviceConnected(d.id)];
      } else {
        assert Opened(devs) == o;
      }
    }
  }

  /** The scan has no duplicate check: a device listed twice that opens is pushed and
      announced twice. */
  lemma ScanPushesDuplicates(s: Bookkeeping, d: BusDevice)
    requires Wanted(d) && OpenOutcome(d.handle).Ok?
    ensures ScanSpec(s, [d, d]).devices == s.devices + [NewEntry(d.id), NewEntry(d.id)]
    ensures ScanSpec(s, [d, d]).events == s.events + [DeviceConnected(d.id), DeviceConnected(d.id)]
  {
    var s1 := ScanStep(s, d);
    assert [d, d][..1] == [d] && [d][..0] == [];
    assert ScanSpec(s, [d]) == s1;
    assert ScanSpec(s, [d, d]) == ScanStep(s1, d);
  }

  /** A pair is present on a tick exactly when a wanted device on the bus has it. */
  lemma {:induction false} PresentSpec(devs: seq<BusDevice>, id: DeviceId)
    ensures id in Present(devs) <==> exists i :: 0 <= i < |devs| && Wanted(devs[i]) && devs[i].id == id
    decreases |devs|
  {
    if devs != [] {
      var pre := devs[..|devs| - 1];
      PresentSpec(pre, id);
      if exists i :: 0 <= i < |pre| && Wanted(pre[i]) && pre[i].id == id {
        var i :| 0 <= i < |pre| && Wanted(pre[i]) && pre[i].id == id;
        assert devs[i] == pre[i];
      }
      if exists i :: 0 <= i < |devs| && Wanted(devs[i]) && devs[i].id == id {
        var i :| 0 <= i < |devs| && Wanted(devs[i]) && devs[i].id == id;
        if i < |pre| {
          assert pre[i] == devs[i];
        }
      }
    }
  }

  /** A tick announces only connections, and announces a pair exactly when it is present
      now and was not known. */
  lemma {:induction false} ArrivalsSpec(known: set<DeviceId>, devs: seq<BusDevice>)
    ensures forall e :: e in Arrivals(known, devs) ==> e.DeviceConnected?
    ensures forall id :: DeviceConnected(id) in Arrivals(known, devs) <==> id in Present(devs) && id !in known
    decreases |devs|
  {
    if devs != [] {
      ArrivalsSpec(known, devs[..|devs| - 1]);
    }
  }

  /** Once the bus is settled a tick is quiet: with every present pair known there is no
      arrival, and with every known pair present nothing is gone. */
  lemma {:induction false} TickQuietWhenSettled(known: set<DeviceId>, devs: seq<BusDevice>)
    requires Present(devs) <= known
    ensures Arrivals(known, devs) == []
    decreases |devs|
  {
    if devs != [] {
      TickQuietWhenSettled(known, devs[..|devs| - 1]);
    }
  }

  /** A monitor run extended by one enumerating tick that reports its departures in `order`. */
  lemma MonitorStep(ticks: seq<BusEnumeration>, orders: seq<seq<DeviceId>>, order: seq<DeviceId>)
    requires |orders| < |ticks| && DepartureOrders(ticks, orders) && ticks[|orders|].Ok?
    requires TickDepartures(KnownBefore(ticks, |orders|), ticks[|orders|].value, order)
    ensures DepartureOrders(ticks, orders + [order])
    ensures MonitorEvents(ticks, orders + [order])
      == MonitorEvents(ticks, orders) + Arrivals(KnownBefore(ticks, |orders|), ticks[|orders|].value) + DisconnectedEvents(order)
  {
    var n := |orders|;
    var extended := orders + [order];
    assert extended[..n] == orders;
    forall i | 0 <= i < |extended|
      ensures ticks[i].Ok? && TickDepartures(KnownBefore(ticks, i), ticks[i].value, extended[i])
    {
      if i < n {
        assert extended[i] == orders[i];
      }
    }
  }

  /** On a monitor run, a tick whose enumeration repeats the tick before sends nothing: no
      pair is new and none is gone. */
  lemma SteadyTickQuiet(ticks: seq<BusEnumeration>, orders: seq<seq<DeviceId>>, i: nat)
    requires DepartureOrders(ticks, orders)
    requires 0 < i < |orders| && ticks[i] == ticks[i - 1]
    ensures orders[i] == []
    ensures Arrivals(KnownBefore(ticks, i), ticks[i].value) + DisconnectedEvents(orders[i]) == []
  {
    assert forall id :: id !in orders[i];
    NoMembersEmpty(orders[i]);
    TickQuietWhenSettled(KnownBefore(ticks, i), ticks[i].value);
  }

  /** A sequence with no members is empty. */
  lemma NoMembersEmpty(xs: seq<DeviceId>)
    requires forall x :: x !in xs
    ensures xs == []
  {
    if xs != [] {
      FirstIsMember(xs);
    }
  }

  /** The first element of a non-empty sequence is one of its members. */
  lemma FirstIsMember(xs: seq<DeviceId>)
    requires xs != []
    ensures xs[0] in xs
  {
  }

  /** Regrouping a chain of appends. */
  lemma AppendRegroup(a: seq<Event>, b: seq<Event>, c: seq<Event>, d: seq<Event>)
    ensures a + b + c + d == a + (b + c + d)
  {
  }
}
