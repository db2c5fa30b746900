/** A device list kept in a `Vec<ManagedDevice>`, as the upsert registry and both device
    managers keep one: first-match search by vendor and product id, and the first-match
    state update. */
module DeviceList {
  import opened Common
  import opened Formatting
  import opened ForeignInstrumentsTypes

  /** A pair written `{:04x}:{:04x}`, as every log line and message about a device is. */
  function PairHex(id: DeviceId): string
  {
    HexZeroPad4(id.vendorId) + ":" + HexZeroPad4(id.productId)
  }

  /** The name `format!("Device {:04x}:{:04x}", ..)` that the upsert registry and the
      libusb manager give a device they create an entry for. */
  function DisplayName(id: DeviceId): string
  {
    "Device " + PairHex(id)
  }

  /** The position of the first device with identifier `id`, if there is one. */
  function FirstMatch(devices: seq<ManagedDevice>, id: DeviceId): (r: Option<nat>)
    ensures r.Some? ==> r.value < |devices| && IdOf(devices[r.value]) == id
    decreases |devices|
  {
    if devices == [] then None
    else if IdOf(devices[0]) == id then Some(0)
    else match FirstMatch(devices[1..], id)
      case None => None
      case Some(i) => Some(i + 1)
  }

  /** `FirstMatch` finds the first matching position, and finds none exactly when no
      device matches. */
  lemma {:induction false} FirstMatchSpec(devices: seq<ManagedDevice>, id: DeviceId)
    ensures FirstMatch(devices, id).None? <==> forall j :: 0 <= j < |devices| ==> IdOf(devices[j]) != id
    ensures FirstMatch(devices, id).Some? ==>
      var i := FirstMatch(devices, id).value;
      i < |devices| && IdOf(devices[i]) == id && forall j :: 0 <= j < i ==> IdOf(devices[j]) != id
    decreases |devices|
  {
    if devices != [] && IdOf(devices[0]) != id {
      FirstMatchSpec(devices[1..], id);
      assert forall j :: 1 <= j < |devices| ==> devices[j] == devices[1..][j - 1];
    }
  }

  /** The device at position `i` with its state replaced. */
  function SetStateAt(devices: seq<ManagedDevice>, i: nat, state: DeviceState): seq<ManagedDevice>
    requires i < |devices|
  {
    devices[i := devices[i].(state := state)]
  }

  /** The list after the state of the first device with identifier `id` is set to
      `state`; unchanged if no device has it. */
  function UpdateFirst(devices: seq<ManagedDevice>, id: DeviceId, state: DeviceState): (r: seq<ManagedDevice>)
    ensures |r| == |devices|
  {
    match FirstMatch(devices, id)
    case None => devices
    case Some(i) => SetStateAt(devices, i, state)
  }

  /** `devices.iter_mut().find(..)`: a scan from the front that stops at the first match. */
  method FindDevice(devices: seq<ManagedDevice>, id: DeviceId) returns (r: Option<nat>)
    ensures r == FirstMatch(devices, id)
  {
    FirstMatchSpec(devices, id);
    for i := 0 to |devices|
      invariant forall j :: 0 <= j < i ==> IdOf(devices[j]) != id
    {
      if devices[i].vendorId == id.vendorId && devices[i].productId == id.productId {
        return Some(i);
      }
    }
    return None;
  }

  /** The update loop: set the state of the first match and stop. */
  method UpdateFirstMatch(devices: seq<ManagedDevice>, id: DeviceId, state: DeviceState) returns (r: seq<ManagedDevice>)
    ensures r == UpdateFirst(devices, id, state)
  {
    r := devices;
    var found := FindDevice(devices, id);
    if found.Some? {
      FirstMatchSpec(devices, id);
      r := r[found.value := r[found.value].(state := state)];
    }
  }

  /** The update changes the state of the first match and nothing else: the length, every
      other entry, and the name and ids of the updated one stay; with no match the list is
      unchanged. */
  lemma UpdateFirstFrame(devices: seq<ManagedDevice>, id: DeviceId, state: DeviceState)
    ensures var r := UpdateFirst(devices, id, state);
      && |r| == |devices|
      && (forall j :: 0 <= j < |r| ==> IdOf(r[j]) == IdOf(devices[j]) && r[j].name == devices[j].name)
      && (FirstMatch(devices, id).None? ==> r == devices)
      && (FirstMatch(devices, id).Some? ==>
            var i := FirstMatch(devices, id).value;
            r[i].state == state && forall j :: 0 <= j < |r| && j != i ==> r[j] == devices[j])
  {
    FirstMatchSpec(devices, id);
  }

  /** No two entries share an identifier. */
  predicate UniqueIds(devices: seq<ManagedDevice>)
  {
    forall i, j :: 0 <= i < j < |devices| ==> IdOf(devices[i]) != IdOf(devices[j])
  }

  /** The update keeps identifiers unique, and in a list with unique identifiers it sets
      the state of the one entry with that identifier. */
  lemma UpdateFirstUnique(devices: seq<ManagedDevice>, id: DeviceId, state: DeviceState)
    requires UniqueIds(devices)
    ensures UniqueIds(UpdateFirst(devices, id, state))
    ensures forall j :: 0 <= j < |devices| && IdOf(devices[j]) == id ==>
      UpdateFirst(devices, id, state)[j].state == state
  {
    UpdateFirstFrame(devices, id, state);
    FirstMatchSpec(devices, id);
  }
}
