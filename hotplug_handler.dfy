/** `HotplugHandler`: the libusb hotplug front end of the string-keyed `DeviceRegistry`.
    It scans the bus once, registers arrival and departure callbacks filtered on vendor
    0x17cc, and repairs device states on demand by polling the bus. The libusb context and
    the bus are inputs: an enumeration is either an error or the sequence of devices on
    the bus, each with its ids and whether its descriptor could be read. */
module Hotplug {
  import opened Common
  import opened ForeignInstrumentsTypes
  import opened Registry

  /** A device on the bus: its ids, and whether `device_descriptor()` succeeds for it. */
  datatype UsbDevice = UsbDevice(id: DeviceId, descriptorReadable: bool)

  /** `context.devices()`: the bus contents, or the error libusb reported. */
  type Enumeration = Result<seq<UsbDevice>, string>

  /** `is_interesting_device`: Native Instruments, M-Audio, Focusrite or Arturia. */
  function IsInterestingDevice(vid: u16): (r: bool)
    ensures r <==> vid in {0x17cc, 0x0763, 0x1235, 0x1bcf}
  {
    vid == 0x17cc || vid == 0x0763 || vid == 0x1235 || vid == 0x1bcf
  }

  /** The vendor every callback registration is filtered on. */
  const CallbackVendor: u16 := 0x17cc

  datatype CallbackKind = Arrival | Departure

  /** One entry of `_registrations`: which handler was registered, and for which vendor. */
  datatype Registration = Registration(kind: CallbackKind, vendorFilter: u16)

  datatype HotplugEvent = Arrived | Left

  // ---- Initial scan ----

  /** The scan decides to add a device when its descriptor is readable and its vendor is
      interesting. */
  predicate Wanted(dev: UsbDevice)
  {
    dev.descriptorReadable && IsInterestingDevice(dev.id.vendorId)
  }

  /** One iteration of the scan: a wanted device is added unless `device_exists` finds it
      under its lookup key. */
  function ScanStep(m: Devices, dev: UsbDevice): Devices
  {
    if Wanted(dev) && LookupKey(dev.id.vendorId, dev.id.productId) !in m
    then Added(m, dev.id.vendorId, dev.id.productId)
    else m
  }

  /** The registry after the scan has visited `devs` in order. */
  function ScanSpec(m: Devices, devs: seq<UsbDevice>): Devices
    decreases |devs|
  {
    if devs == [] then m else ScanStep(ScanSpec(m, devs[..|devs| - 1]), devs[|devs| - 1])
  }

  // ---- Device lookup on the bus ----

  /** The position of the first device with a readable descriptor and ids `id`. */
  function FirstReadable(devs: seq<UsbDevice>, id: DeviceId): (r: Option<nat>)
    ensures r.Some? ==> r.value < |devs| && devs[r.value] == UsbDevice(id, true)
    decreases |devs|
  {
    if devs == [] then None
    else if devs[0] == UsbDevice(id, true) then Some(0)
    else match FirstReadable(devs[1..], id)
      case None => None
      case Some(i) => Some(i + 1)
  }

  /** `find_device_by_vid_pid`: nothing when enumeration fails, else the first match. */
  function FindByIds(enumeration: Enumeration, id: DeviceId): Option<nat>
  {
    if enumeration.Err? then None else FirstReadable(enumeration.value, id)
  }

  /** `find_device_by_vid_pid` as the loop it is. */
  method FindDeviceByVidPid(enumeration: Enumeration, vid: u16, pid: u16) returns (r: Option<nat>)
    ensures r == FindByIds(enumeration, DeviceId(vid, pid))
  {
    if enumeration.Err? {
      return None;
    }
    var devs := enumeration.value;
    FirstReadableSpec(devs, DeviceId(vid, pid));
    for i := 0 to |devs|
      invariant forall j :: 0 <= j < i ==> devs[j] != UsbDevice(DeviceId(vid, pid), true)
    {
      if devs[i].descriptorReadable {
        var desc := devs[i].id;
        if desc.vendorId == vid && desc.productId == pid {
          return Some(i);
        }
      }
    }
    return None;
  }

  // ---- Polling ----

  /** The state `poll_devices` writes for a device in state `state` that is `present` on
      the bus, if it writes one. */
  function PollAction(state: DeviceState, present: bool): Option<DeviceState>
  {
    if present then (if !state.Active? then Some(Active) else None)
    else if state.Active? then Some(Disconnected) else None
  }

  /** One iteration of the poll, for a device of the snapshot. */
  function PollStep(m: Devices, d: ManagedDevice, enumeration: Enumeration): Devices
  {
    match PollAction(d.state, FindByIds(enumeration, IdOf(d)).Some?)
    case None => m
    case Some(s) => Updated(m, d.vendorId, d.productId, s)
  }

  /** The registry after the poll has visited the snapshot `snap` in order. */
  function PollSpec(m: Devices, snap: seq<ManagedDevice>, enumeration: Enumeration): Devices
    decreases |snap|
  {
    if snap == [] then m else PollStep(PollSpec(m, snap[..|snap| - 1], enumeration), snap[|snap| - 1], enumeration)
  }

  /** The values of `m` listed in the key order `order`. */
  function Values(m: Devices, order: seq<string>): (r: seq<ManagedDevice>)
    requires forall k :: k in order ==> k in m
    ensures |r| == |order| && forall i :: 0 <= i < |order| ==> r[i] == m[order[i]]
  {
    seq(|order|, i requires 0 <= i < |order| => m[order[i]])
  }

  // ---- Callbacks ----

  /** What a registered handler does with an event: the arrival handler adds on arrival,
      the departure handler removes on departure, each only when the descriptor can be
      read; the other event is ignored. */
  function HandlerEffect(m: Devices, kind: CallbackKind, event: HotplugEvent, dev: UsbDevice): Devices
  {
    if !dev.descriptorReadable then m
    else match (kind, event)
      case (Arrival, Arrived) => Added(m, dev.id.vendorId, dev.id.productId)
      case (Departure, Left) => Removed(m, dev.id.vendorId, dev.id.productId)
      case _ => m
  }

  /** libusb delivering an event to the registrations, in order, that match the device's
      vendor. */
  function DispatchSpec(m: Devices, regs: seq<Registration>, event: HotplugEvent, dev: UsbDevice): Devices
    decreases |regs|
  {
    if regs == [] then m
    else
      var prev := DispatchSpec(m, regs[..|regs| - 1], event, dev);
      var reg := regs[|regs| - 1];
      if reg.vendorFilter == dev.id.vendorId then HandlerEffect(prev, reg.kind, event, dev) else prev
  }

  /** `DeviceArrivalHandler::device_arrived`. */
  method ArrivalDeviceArrived(registry: DeviceRegistry, dev: UsbDevice)
    modifies registry
    ensures registry.devices == HandlerEffect(old(registry.devices), Arrival, Arrived, dev)
  {
    if !dev.descriptorReadable {
      return;
    }
    registry.AddDevice(dev.id.vendorId, dev.id.productId);
  }

  /** `DeviceDepartureHandler::device_left`. */
  method DepartureDeviceLeft(registry: DeviceRegistry, dev: UsbDevice)
    modifies registry
    ensures registry.devices == HandlerEffect(old(registry.devices), Departure, Left, dev)
  {
    if !dev.descriptorReadable {
      return;
    }
    registry.RemoveDevice(dev.id.vendorId, dev.id.productId);
  }

  class HotplugHandler {
    const registry: DeviceRegistry
    var registrations: seq<Registration>

    /** Every registration is filtered on vendor 0x17cc. */
    predicate Valid()
      reads this
    {
      forall i :: 0 <= i < |registrations| ==> registrations[i].vendorFilter == CallbackVendor
    }

    constructor (registry: DeviceRegistry)
      ensures this.registry == registry && registrations == [] && Valid()
    {
      this.registry := registry;
      registrations := [];
    }

    /** `register_hotplug_callbacks`, given whether the platform supports hotplug and the
        outcome of each of the two registrations (an error message, or none). */
    method RegisterHotplugCallbacks(hasHotplug: bool, arrivalError: Option<string>, departureError: Option<string>)
      returns (r: Result<(), string>)
      requires Valid()
      modifies this
      ensures Valid()
      ensures !hasHotplug ==> r == Ok(()) && registrations == old(registrations)
      ensures hasHotplug && arrivalError.Some? ==> r == Err(arrivalError.value) && registrations == old(registrations)
      ensures hasHotplug && arrivalError.None? && departureError.Some? ==>
        r == Err(departureError.value) && registrations == old(registrations)
      ensures hasHotplug && arrivalError.None? && departureError.None? ==>
        r == Ok(()) && registrations == old(registrations) + [Registration(Arrival, CallbackVendor), Registration(Departure, CallbackVendor)]
    {
      if !hasHotplug {
        return Ok(());
      }
      if arrivalError.Some? {
        return Err(arrivalError.value);
      }
      var arrivalRegistration := Registration(Arrival, CallbackVendor);
      if departureError.Some? {
        // The arrival registration is dropped, which deregisters it.
        return Err(departureError.value);
      }
      var departureRegistration := Registration(Departure, CallbackVendor);
      registrations := registrations + [arrivalRegistration];
      registrations := registrations + [departureRegistration];
      return Ok(());
    }

    /** `scan_initial_devices`; the closing status print is left out. */
    method ScanInitialDevices(enumeration: Enumeration) returns (r: Result<(), string>)
      modifies registry
      ensures enumeration.Err? ==> r == Err(enumeration.error) && registry.devices == old(registry.devices)
      ensures enumeration.Ok? ==> r == Ok(()) && registry.devices == ScanSpec(old(registry.devices), enumeration.value)
    {
      if enumeration.Err? {
        return Err(enumeration.error);
      }
      var devs := enumeration.value;
      for i := 0 to |devs|
        invariant registry.devices == ScanSpec(old(registry.devices), devs[..i])
      {
        assert devs[..i + 1][..i] == devs[..i];
        var dev := devs[i];
        if !dev.descriptorReadable {
          continue;
        }
        var desc := dev.id;
        if IsInterestingDevice(desc.vendorId) {
          var known := registry.DeviceExists(desc.vendorId, desc.productId);
          if !known {
            registry.AddDevice(desc.vendorId, desc.productId);
          }
        }
      }
      assert devs[..|devs|] == devs;
      return Ok(());
    }

    /** `poll_devices`, with the bus unchanged for the duration of the poll. `order` is
        the iteration order `get_all_devices` used for its snapshot. */
    method PollDevices(enumeration: Enumeration) returns (r: Result<(), string>, ghost order: seq<string>)
      modifies registry
      ensures r == Ok(())
      ensures Distinct(order) && forall k :: k in order <==> k in old(registry.devices)
      ensures registry.devices == PollSpec(old(registry.devices), Values(old(registry.devices), order), enumeration)
    {
      var devices;
      devices, order := registry.GetAllDevices();
      assert devices == Values(old(registry.devices), order);
      for i := 0 to |devices|
        invariant registry.devices == PollSpec(old(registry.devices), devices[..i], enumeration)
      {
        assert devices[..i + 1][..i] == devices[..i];
        PollDevice(devices[i], enumeration);
      }
      assert devices[..|devices|] == devices;
      return Ok(()), order;
    }

    /** One iteration of `poll_devices`: look the device up on the bus and repair its
        state. */
    method PollDevice(device: ManagedDevice, enumeration: Enumeration)
      modifies registry
      ensures registry.devices == PollStep(old(registry.devices), device, enumeration)
    {
      var usbDevice := FindDeviceByVidPid(enumeration, device.vendorId, device.productId);
      if usbDevice.Some? {
        if !device.state.Active? {
          registry.UpdateDeviceState(device.vendorId, device.productId, Active);
        }
      } else {
        if device.state.Active? {
          registry.UpdateDeviceState(device.vendorId, device.productId, Disconnected);
        }
      }
    }

    /** libusb invoking every registered callback whose filter matches the device. */
    method Deliver(event: HotplugEvent, dev: UsbDevice)
      modifies registry
      ensures registry.devices == DispatchSpec(old(registry.devices), registrations, event, dev)
    {
      for i := 0 to |registrations|
        invariant registry.devices == DispatchSpec(old(registry.devices), registrations[..i], event, dev)
      {
        assert registrations[..i + 1][..i] == registrations[..i];
        var reg := registrations[i];
        if reg.vendorFilter == dev.id.vendorId {
          match (reg.kind, event) {
            case (Arrival, Arrived) => ArrivalDeviceArrived(registry, dev);
            case (Departure, Left) => DepartureDeviceLeft(registry, dev);
            case _ =>
          }
        }
      }
      assert registrations[..|registrations|] == registrations;
    }
  }

  /** `HotplugHandler::new`, given the error `Context::new` reports, if any. */
  method NewHotplugHandler(registry: DeviceRegistry, contextError: Option<string>) returns (r: Result<HotplugHandler, string>)
    ensures contextError.Some? ==> r == Err(contextError.value)
    ensures contextError.None? ==>
      (r.Ok? && fresh(r.value) && r.value.registry == registry && r.value.registrations == [] && r.value.Valid())
  {
    if contextError.Some? {
      return Err(contextError.value);
    }
    var h := new HotplugHandler(registry);
    return Ok(h);
  }

  // ---- Properties of the scan ----

  /** The scan never removes or changes an entry. */
  lemma {:induction false} ScanKeeps(m: Devices, devs: seq<UsbDevice>)
    ensures forall k :: k in m ==> k in ScanSpec(m, devs) && ScanSpec(m, devs)[k] == m[k]
    decreases |devs|
  {
    if devs != [] {
      var prev := ScanSpec(m, devs[..|devs| - 1]);
      ScanKeeps(m, devs[..|devs| - 1]);
      var dev := devs[|devs| - 1];
      AddedProperties(prev, dev.id.vendorId, dev.id.productId);
    }
  }

  /** Every wanted device is known to `m` under one of its two keys. */
  predicate Covered(m: Devices, devs: seq<UsbDevice>)
  {
    forall i :: 0 <= i < |devs| && Wanted(devs[i]) ==>
      AddKey(devs[i].id.vendorId, devs[i].id.productId) in m || LookupKey(devs[i].id.vendorId, devs[i].id.productId) in m
  }

  /** After the scan every wanted device is present under its insertion key or was already
      present under its lookup key. */
  lemma {:induction false} ScanCovers(m: Devices, devs: seq<UsbDevice>)
    ensures Covered(ScanSpec(m, devs), devs)
    decreases |devs|
  {
    if devs != [] {
      var init := devs[..|devs| - 1];
      var prev := ScanSpec(m, init);
      var dev := devs[|devs| - 1];
      ScanCovers(m, init);
      AddedProperties(prev, dev.id.vendorId, dev.id.productId);
      PutIfAbsentFacts(prev, AddKey(dev.id.vendorId, dev.id.productId), NewEntry(dev.id.vendorId, dev.id.productId));
      forall i | 0 <= i < |devs| - 1 && Wanted(devs[i])
        ensures AddKey(devs[i].id.vendorId, devs[i].id.productId) in ScanSpec(m, devs)
          || LookupKey(devs[i].id.vendorId, devs[i].id.productId) in ScanSpec(m, devs)
      {
        assert devs[i] == init[i];
      }
    }
  }

  /** Where a new entry comes from: a wanted device of the scan, under whose insertion
      key it sits, as the `Active` entry `add_device` makes. */
  lemma {:induction false} ScanOrigin(m: Devices, devs: seq<UsbDevice>, k: string) returns (i: nat)
    requires k in ScanSpec(m, devs) && k !in m
    ensures i < |devs| && Wanted(devs[i]) && k == AddKey(devs[i].id.vendorId, devs[i].id.productId)
    ensures ScanSpec(m, devs)[k] == NewEntry(devs[i].id.vendorId, devs[i].id.productId)
    decreases |devs|
  {
    var init := devs[..|devs| - 1];
    var prev := ScanSpec(m, init);
    var dev := devs[|devs| - 1];
    PutIfAbsentFacts(prev, AddKey(dev.id.vendorId, dev.id.productId), NewEntry(dev.id.vendorId, dev.id.productId));
    if k in prev {
      i := ScanOrigin(m, init, k);
      assert devs[i] == init[i];
    } else {
      i := |devs| - 1;
    }
  }

  /** Every new entry comes from a wanted device of the scan. */
  lemma ScanNewEntries(m: Devices, devs: seq<UsbDevice>)
    ensures forall k :: k in ScanSpec(m, devs) && k !in m ==>
      exists i :: (0 <= i < |devs| && Wanted(devs[i]) && k == AddKey(devs[i].id.vendorId, devs[i].id.productId)
        && ScanSpec(m, devs)[k] == NewEntry(devs[i].id.vendorId, devs[i].id.productId))
  {
    forall k | k in ScanSpec(m, devs) && k !in m
      ensures exists i :: (0 <= i < |devs| && Wanted(devs[i]) && k == AddKey(devs[i].id.vendorId, devs[i].id.productId)
        && ScanSpec(m, devs)[k] == NewEntry(devs[i].id.vendorId, devs[i].id.productId))
    {
      var i := ScanOrigin(m, devs, k);
    }
  }

  /** A scan over devices that are all covered changes nothing. */
  lemma {:induction false} ScanSettled(m: Devices, devs: seq<UsbDevice>)
    requires Covered(m, devs)
    ensures ScanSpec(m, devs) == m
    decreases |devs|
  {
    if devs != [] {
      var init := devs[..|devs| - 1];
      assert Covered(m, init) by {
        forall i | 0 <= i < |init| && Wanted(init[i])
          ensures AddKey(init[i].id.vendorId, init[i].id.productId) in m || LookupKey(init[i].id.vendorId, init[i].id.productId) in m
        {
          assert init[i] == devs[i];
        }
      }
      ScanSettled(m, init);
      var dev := devs[|devs| - 1];
      if Wanted(dev) && LookupKey(dev.id.vendorId, dev.id.productId) !in m {
        AddedProperties(m, dev.id.vendorId, dev.id.productId);
      }
    }
  }

  /** Scanning the same bus twice is scanning it once: the insertion key a scan adds
      keeps a second `add_device` from inserting, even though `device_exists` never sees
      it. */
  lemma ScanIdempotent(m: Devices, devs: seq<UsbDevice>)
    ensures ScanSpec(ScanSpec(m, devs), devs) == ScanSpec(m, devs)
  {
    ScanCovers(m, devs);
    ScanSettled(ScanSpec(m, devs), devs);
  }

  /** The scan keeps every entry under its own insertion key. */
  lemma {:induction false} ScanWellKeyed(m: Devices, devs: seq<UsbDevice>)
    requires WellKeyed(m)
    ensures WellKeyed(ScanSpec(m, devs))
    decreases |devs|
  {
    if devs != [] {
      var prev := ScanSpec(m, devs[..|devs| - 1]);
      ScanWellKeyed(m, devs[..|devs| - 1]);
      var dev := devs[|devs| - 1];
      AddedWellKeyed(prev, dev.id.vendorId, dev.id.productId);
    }
  }

  // ---- Properties of the lookup ----

  /** The lookup finds the first readable device with those ids, and none exactly when
      enumeration fails or there is no such device. */
  lemma {:induction false} FirstReadableSpec(devs: seq<UsbDevice>, id: DeviceId)
    ensures FirstReadable(devs, id).None? <==> forall j :: 0 <= j < |devs| ==> devs[j] != UsbDevice(id, true)
    ensures FirstReadable(devs, id).Some? ==>
      forall j :: 0 <= j < FirstReadable(devs, id).value ==> devs[j] != UsbDevice(id, true)
    decreases |devs|
  {
    if devs != [] && devs[0] != UsbDevice(id, true) {
      FirstReadableSpec(devs[1..], id);
      assert forall j :: 1 <= j < |devs| ==> devs[j] == devs[1..][j - 1];
    }
  }

  lemma FindByIdsSpec(enumeration: Enumeration, id: DeviceId)
    ensures FindByIds(enumeration, id).None? <==>
      enumeration.Err? || forall j :: 0 <= j < |enumeration.value| ==> enumeration.value[j] != UsbDevice(id, true)
    ensures FindByIds(enumeration, id).Some? ==>
      var i := FindByIds(enumeration, id).value;
      && enumeration.Ok? && i < |enumeration.value| && enumeration.value[i] == UsbDevice(id, true)
      && forall j :: 0 <= j < i ==> enumeration.value[j] != UsbDevice(id, true)
  {
    if enumeration.Ok? {
      FirstReadableSpec(enumeration.value, id);
    }
  }

  // ---- Properties of the poll ----

  /** The poll acts exactly when presence on the bus and being `Active` disagree, and
      then makes them agree: present devices become `Active`, absent `Active` ones
      `Disconnected`. */
  lemma PollActionAgrees(state: DeviceState, present: bool)
    ensures PollAction(state, present).None? <==> (present == state.Active?)
    ensures PollAction(state, present).Some? ==>
      PollAction(state, present).value == (if present then Active else Disconnected)
  {
  }

  /** One poll step keeps the keys, the names and the ids of every entry. */
  lemma PollStepShape(prev: Devices, d: ManagedDevice, enumeration: Enumeration)
    ensures var after := PollStep(prev, d, enumeration);
      && after.Keys == prev.Keys
      && (forall k :: k in prev ==> after[k].name == prev[k].name && IdOf(after[k]) == IdOf(prev[k]))
  {
    var action := PollAction(d.state, FindByIds(enumeration, IdOf(d)).Some?);
    if action.Some? {
      SetStateFacts(prev, LookupKey(d.vendorId, d.productId), action.value);
    }
  }

  /** The poll keeps the keys, the names and the ids of every entry. */
  lemma {:induction false} PollKeepsShape(m: Devices, snap: seq<ManagedDevice>, enumeration: Enumeration)
    ensures var after := PollSpec(m, snap, enumeration);
      && after.Keys == m.Keys
      && (forall k :: k in m ==> after[k].name == m[k].name && IdOf(after[k]) == IdOf(m[k]))
    decreases |snap|
  {
    if snap != [] {
      PollKeepsShape(m, snap[..|snap| - 1], enumeration);
      PollStepShape(PollSpec(m, snap[..|snap| - 1], enumeration), snap[|snap| - 1], enumeration);
    }
  }

  /** No device of the snapshot is looked up under `k`. */
  predicate NotLookedUp(k: string, snap: seq<ManagedDevice>)
  {
    forall j :: 0 <= j < |snap| ==> k != LookupKey(snap[j].vendorId, snap[j].productId)
  }

  /** The poll touches only entries that sit under the lookup key of some device of the
      snapshot. */
  lemma {:induction false} PollUntouched(m: Devices, snap: seq<ManagedDevice>, enumeration: Enumeration, k: string)
    requires k in m && NotLookedUp(k, snap)
    ensures k in PollSpec(m, snap, enumeration) && PollSpec(m, snap, enumeration)[k] == m[k]
    decreases |snap|
  {
    if snap != [] {
      var init := snap[..|snap| - 1];
      var prev := PollSpec(m, init, enumeration);
      var d := snap[|snap| - 1];
      assert NotLookedUp(k, init) by {
        forall j | 0 <= j < |init|
          ensures k != LookupKey(init[j].vendorId, init[j].productId)
        {
          assert init[j] == snap[j];
        }
      }
      PollUntouched(m, init, enumeration, k);
      assert k != LookupKey(d.vendorId, d.productId);
      SetStateFacts(prev, LookupKey(d.vendorId, d.productId), Active);
      SetStateFacts(prev, LookupKey(d.vendorId, d.productId), Disconnected);
    }
  }

  /** A device whose vendor id has fewer than four hexadecimal digits or whose product id
      has fewer than four decimal digits. */
  predicate ShortIds(d: ManagedDevice)
  {
    d.vendorId < 0x1000 || d.productId < 1000
  }

  /** In a registry filled by `add_device` whose devices all have short ids, no lookup key
      of any device matches an entry, so the poll repairs nothing. */
  lemma PollRepairsNothing(m: Devices, snap: seq<ManagedDevice>, enumeration: Enumeration)
    requires WellKeyed(m)
    requires forall k :: k in m ==> ShortIds(m[k])
    ensures PollSpec(m, snap, enumeration) == m
  {
    PollKeepsShape(m, snap, enumeration);
    var after := PollSpec(m, snap, enumeration);
    forall k | k in m
      ensures after[k] == m[k]
    {
      AddKeySpaced(m[k].vendorId, m[k].productId);
      forall j | 0 <= j < |snap|
        ensures k != LookupKey(snap[j].vendorId, snap[j].productId)
      {
        LookupKeyUnspaced(snap[j].vendorId, snap[j].productId);
      }
      PollUntouched(m, snap, enumeration, k);
    }
  }

  // ---- Properties of the callbacks ----

  /** With every registration filtered on 0x17cc, a device of any other vendor changes
      nothing, whatever the event. */
  lemma {:induction false} DispatchFiltered(m: Devices, regs: seq<Registration>, event: HotplugEvent, dev: UsbDevice)
    requires forall i :: 0 <= i < |regs| ==> regs[i].vendorFilter == CallbackVendor
    requires dev.id.vendorId != CallbackVendor
    ensures DispatchSpec(m, regs, event, dev) == m
    decreases |regs|
  {
    if regs != [] {
      DispatchFiltered(m, regs[..|regs| - 1], event, dev);
    }
  }

  /** With the two callbacks registered, a 0x17cc device of any product whose descriptor
      can be read is added on arrival, and on departure `remove_device` is called for its
      pair, which misses the entry the arrival added (`AddedInvisibleToSamePair`); no
      interest check beyond the filter applies. */
  lemma DispatchRegistered(m: Devices, event: HotplugEvent, dev: UsbDevice)
    requires dev.id.vendorId == CallbackVendor
    ensures var regs := [Registration(Arrival, CallbackVendor), Registration(Departure, CallbackVendor)];
      DispatchSpec(m, regs, event, dev) ==
        if !dev.descriptorReadable then m
        else if event == Arrived then Added(m, dev.id.vendorId, dev.id.productId)
        else Removed(m, dev.id.vendorId, dev.id.productId)
  {
    var regs := [Registration(Arrival, CallbackVendor), Registration(Departure, CallbackVendor)];
    var r1 := [Registration(Arrival, CallbackVendor)];
    assert r1[..0] == [];
    assert DispatchSpec(m, r1, event, dev) == HandlerEffect(m, Arrival, event, dev);
    assert regs[..1] == r1;
    assert DispatchSpec(m, regs, event, dev) == HandlerEffect(DispatchSpec(m, r1, event, dev), Departure, event, dev);
  }
}
