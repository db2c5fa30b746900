/** The stand-alone hotplug program: a global `Vec<ManagedDevice>` updated by upsert, and
    the arrival and departure callbacks that drive it. Device initialisation is simulated
    by the program itself; its random failure is an input. */
module MainHotplug {
  import opened Common
  import opened Formatting
  import opened ForeignInstrumentsTypes
  import opened DeviceList

  const NativeInstrumentsVid: u16 := 0x17cc
  const CommonMidiVids: seq<u16> := [0x0763, 0x1235, 0x1bcf]

  /** `is_interesting_device`. */
  function IsInterestingDevice(vid: u16): bool
  {
    vid == NativeInstrumentsVid || vid in CommonMidiVids
  }

  /** `update_device_state`: set the state of the first entry with these ids, or append
      a new entry with that state when there is none. */
  function Upsert(devices: seq<ManagedDevice>, id: DeviceId, state: DeviceState): seq<ManagedDevice>
  {
    match FirstMatch(devices, id)
    case Some(i) => SetStateAt(devices, i, state)
    case None => devices + [ManagedDevice(DisplayName(id), id.vendorId, id.productId, state)]
  }

  /** `initialize_device`: uninteresting vendors are refused; device 17cc:1500 may fail at
      random, as `randomFailure` says; every other interesting device succeeds. */
  function InitializeDevice(id: DeviceId, randomFailure: bool): Result<(), string>
  {
    if !IsInterestingDevice(id.vendorId) then Err("Device not in supported vendor list")
    else if id.vendorId == NativeInstrumentsVid && id.productId == 0x1500 && randomFailure then
      Err("Random initialization failure for testing")
    else Ok(())
  }

  /** The state `device_arrived` writes for a readable, interesting device. */
  function ArrivalState(init: Result<(), string>): DeviceState
  {
    match init
    case Ok(_) => Active
    case Err(e) => Error("Initialization failed: " + e)
  }

  /** `PrintHotplug::device_arrived`, for a descriptor that may fail to read. */
  function Arrived(devices: seq<ManagedDevice>, desc: Option<DeviceId>, randomFailure: bool): seq<ManagedDevice>
  {
    if desc.None? || !IsInterestingDevice(desc.value.vendorId) then devices
    else Upsert(devices, desc.value, ArrivalState(InitializeDevice(desc.value, randomFailure)))
  }

  /** `PrintHotplug::device_left`. */
  function Left(devices: seq<ManagedDevice>, desc: Option<DeviceId>): seq<ManagedDevice>
  {
    if desc.None? || !IsInterestingDevice(desc.value.vendorId) then devices
    else Upsert(devices, desc.value, Disconnected)
  }

  /** `DEVICE_REGISTRY`; the mutex is not modelled. */
  class GlobalRegistry {
    var devices: seq<ManagedDevice>

    constructor ()
      ensures devices == []
    {
      devices := [];
    }

    /** `update_device_state`. */
    method UpdateDeviceState(vendorId: u16, productId: u16, newState: DeviceState)
      modifies this
      ensures devices == Upsert(old(devices), DeviceId(vendorId, productId), newState)
    {
      var id := DeviceId(vendorId, productId);
      var found := FindDevice(devices, id);
      if found.Some? {
        devices := devices[found.value := devices[found.value].(state := newState)];
      } else {
        var dev := ManagedDevice(DisplayName(id), vendorId, productId, newState);
        devices := devices + [dev];
      }
    }

    /** `handle_device_error`. */
    method HandleDeviceError(vendorId: u16, productId: u16, errorMsg: string)
      modifies this
      ensures devices == Upsert(old(devices), DeviceId(vendorId, productId), Error(errorMsg))
    {
      UpdateDeviceState(vendorId, productId, Error(errorMsg));
    }

    /** `device_arrived`; the simulated MIDI input after a successful initialisation is
        left out. */
    method DeviceArrived(desc: Option<DeviceId>, randomFailure: bool)
      modifies this
      ensures devices == Arrived(old(devices), desc, randomFailure)
    {
      if desc.Some? {
        if IsInterestingDevice(desc.value.vendorId) {
          var vendorId, productId := desc.value.vendorId, desc.value.productId;
          var init := InitializeDevice(desc.value, randomFailure);
          match init {
            case Ok(_) =>
              UpdateDeviceState(vendorId, productId, Active);
            case Err(e) =>
              HandleDeviceError(vendorId, productId, "Initialization failed: " + e);
          }
        }
      }
    }

    /** `device_left`. */
    method DeviceLeft(desc: Option<DeviceId>)
      modifies this
      ensures devices == Left(old(devices), desc)
    {
      if desc.Some? {
        if IsInterestingDevice(desc.value.vendorId) {
          UpdateDeviceState(desc.value.vendorId, desc.value.productId, Disconnected);
        }
      }
    }
  }

  // ---- Properties ----

  /** The interesting vendors are exactly Native Instruments, M-Audio, Focusrite and
      Arturia. */
  lemma InterestingVendors(vid: u16)
    ensures IsInterestingDevice(vid) <==> vid in {0x17cc, 0x0763, 0x1235, 0x1bcf}
  {
  }

  /** On a known pair the upsert sets the state of the first match only: the length and
      every other entry stay, as do the name and ids of the updated one. */
  lemma UpsertKnown(devices: seq<ManagedDevice>, id: DeviceId, state: DeviceState)
    requires FirstMatch(devices, id).Some?
    ensures var r := Upsert(devices, id, state);
      var i := FirstMatch(devices, id).value;
      && |r| == |devices|
      && r[i] == devices[i].(state := state)
      && forall j :: 0 <= j < |r| && j != i ==> r[j] == devices[j]
  {
  }

  /** On an unknown pair the upsert appends exactly one entry, named after the ids in
      zero-padded hexadecimal, with the given state. */
  lemma UpsertUnknown(devices: seq<ManagedDevice>, id: DeviceId, state: DeviceState)
    requires forall j :: 0 <= j < |devices| ==> IdOf(devices[j]) != id
    ensures Upsert(devices, id, state)
      == devices + [ManagedDevice("Device " + HexZeroPad4(id.vendorId) + ":" + HexZeroPad4(id.productId), id.vendorId, id.productId, state)]
  {
    FirstMatchSpec(devices, id);
    assert DisplayName(id) == "Device " + HexZeroPad4(id.vendorId) + ":" + HexZeroPad4(id.productId);
  }

  /** The upsert never creates a duplicate pair, and afterwards the pair is present and
      every entry with it has the given state. */
  lemma UpsertUnique(devices: seq<ManagedDevice>, id: DeviceId, state: DeviceState)
    requires UniqueIds(devices)
    ensures var r := Upsert(devices, id, state);
      && UniqueIds(r)
      && (exists j :: 0 <= j < |r| && IdOf(r[j]) == id)
      && forall j :: 0 <= j < |r| && IdOf(r[j]) == id ==> r[j].state == state
  {
    FirstMatchSpec(devices, id);
    var r := Upsert(devices, id, state);
    match FirstMatch(devices, id)
    case Some(i) =>
      assert IdOf(r[i]) == id;
    case None =>
      assert IdOf(r[|devices|]) == id;
      forall a, b | 0 <= a < b < |r|
        ensures IdOf(r[a]) != IdOf(r[b])
      {
        if b == |devices| {
          assert r[a] == devices[a];
        } else {
          assert r[a] == devices[a] && r[b] == devices[b];
        }
      }
  }

  /** Every entry with the pair has state `Error(msg)` after `handle_device_error`, in a
      list without duplicate pairs. */
  lemma HandleErrorSetsError(devices: seq<ManagedDevice>, id: DeviceId, msg: string)
    requires UniqueIds(devices)
    ensures var r := Upsert(devices, id, Error(msg));
      (exists j :: 0 <= j < |r| && IdOf(r[j]) == id) && forall j :: 0 <= j < |r| && IdOf(r[j]) == id ==> r[j].state == Error(msg)
  {
    UpsertUnique(devices, id, Error(msg));
  }

  /** `initialize_device` refuses exactly the uninteresting vendors, and fails for an
      interesting one only on the random failure of device 17cc:1500. */
  lemma InitializeOutcomes(id: DeviceId, randomFailure: bool)
    ensures !IsInterestingDevice(id.vendorId) ==> InitializeDevice(id, randomFailure) == Err("Device not in supported vendor list")
    ensures IsInterestingDevice(id.vendorId) ==>
      (InitializeDevice(id, randomFailure).Err? <==> (id == DeviceId(0x17cc, 0x1500) && randomFailure))
  {
  }

  /** An arrival changes nothing for an unreadable descriptor or an uninteresting
      vendor; otherwise it upserts `Active` when initialisation succeeds and
      `Error("Initialization failed: " + e)` when it fails with `e`. */
  lemma ArrivalOutcomes(devices: seq<ManagedDevice>, desc: Option<DeviceId>, randomFailure: bool)
    ensures desc.None? || !IsInterestingDevice(desc.value.vendorId) ==> Arrived(devices, desc, randomFailure) == devices
    ensures desc.Some? && IsInterestingDevice(desc.value.vendorId) ==>
      var init := InitializeDevice(desc.value, randomFailure);
      && (init.Ok? ==> Arrived(devices, desc, randomFailure) == Upsert(devices, desc.value, Active))
      && (init.Err? ==> Arrived(devices, desc, randomFailure) == Upsert(devices, desc.value, Error("Initialization failed: " + init.error)))
  {
  }

  /** A departure of an interesting device leaves it `Disconnected`, creating the entry
      if the pair was unknown; other departures change nothing. */
  lemma LeftOutcomes(devices: seq<ManagedDevice>, desc: Option<DeviceId>)
    requires UniqueIds(devices)
    ensures desc.None? || !IsInterestingDevice(desc.value.vendorId) ==> Left(devices, desc) == devices
    ensures desc.Some? && IsInterestingDevice(desc.value.vendorId) ==>
      var r := Left(devices, desc);
      && UniqueIds(r)
      && (exists j :: 0 <= j < |r| && IdOf(r[j]) == desc.value)
      && forall j :: 0 <= j < |r| && IdOf(r[j]) == desc.value ==> r[j].state == Disconnected
  {
    if desc.Some? && IsInterestingDevice(desc.value.vendorId) {
      UpsertUnique(devices, desc.value, Disconnected);
    }
  }

  /** Arrivals and departures keep pairs unique, so the global list never holds two
      entries for one device. */
  lemma CallbacksKeepUnique(devices: seq<ManagedDevice>, desc: Option<DeviceId>, randomFailure: bool)
    requires UniqueIds(devices)
    ensures UniqueIds(Arrived(devices, desc, randomFailure))
    ensures UniqueIds(Left(devices, desc))
  {
    if desc.Some? && IsInterestingDevice(desc.value.vendorId) {
      UpsertUnique(devices, desc.value, ArrivalState(InitializeDevice(desc.value, randomFailure)));
      UpsertUnique(devices, desc.value, Disconnected);
    }
  }
}
