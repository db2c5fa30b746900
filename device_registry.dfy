/** `DeviceRegistry`: tracked devices in a hash map keyed by a formatted string. The entry
    point that inserts (`add_device`) writes its key as `"{:4x}:{:4}"`, the vendor id in
    space-padded hexadecimal and the product id in space-padded DECIMAL, while every lookup
    (`remove_device`, `update_device_state`, `device_exists`, `get_device`) writes
    `"{:04x}:{:04x}"`. The model keeps both formats as written; the lemmas below show that
    for the same pair they never coincide. */
module Registry {
  import opened Common
  import opened Formatting
  import opened ForeignInstrumentsTypes

  /** The key `add_device` inserts under. */
  function AddKey(vendorId: u16, productId: u16): string
  {
    HexSpacePad4(vendorId) + ":" + DecSpacePad4(productId)
  }

  /** The key every other operation looks up. */
  function LookupKey(vendorId: u16, productId: u16): string
  {
    HexZeroPad4(vendorId) + ":" + HexZeroPad4(productId)
  }

  /** `get_device_name`. */
  function DeviceName(vendorId: u16, productId: u16): string
  {
    "Device " + AddKey(vendorId, productId)
  }

  type Devices = map<string, ManagedDevice>

  // ---- The operations on the map ----

  /** The entry `add_device` creates: `Active`, named after the insertion key. */
  function NewEntry(vendorId: u16, productId: u16): ManagedDevice
  {
    ManagedDevice(DeviceName(vendorId, productId), vendorId, productId, Active)
  }

  /** Insert `d` under `key` unless the key is already present. */
  function PutIfAbsent(devices: Devices, key: string, d: ManagedDevice): Devices
  {
    if key in devices then devices else devices[key := d]
  }

  /** Replace the state of the entry under `key`, if there is one. */
  function SetState(devices: Devices, key: string, state: DeviceState): Devices
  {
    if key in devices then devices[key := devices[key].(state := state)] else devices
  }

  /** `add_device`: a new entry under the insertion key, unless that key is present. */
  function Added(devices: Devices, vendorId: u16, productId: u16): Devices
  {
    PutIfAbsent(devices, AddKey(vendorId, productId), NewEntry(vendorId, productId))
  }

  /** `remove_device`: drop the entry under the lookup key, if any. */
  function Removed(devices: Devices, vendorId: u16, productId: u16): Devices
  {
    devices - {LookupKey(vendorId, productId)}
  }

  /** `update_device_state`: replace the state of the entry under the lookup key, if any. */
  function Updated(devices: Devices, vendorId: u16, productId: u16, state: DeviceState): Devices
  {
    SetState(devices, LookupKey(vendorId, productId), state)
  }

  /** Every entry sits under the insertion key of its own ids, as `add_device` puts it. */
  predicate WellKeyed(devices: Devices)
  {
    forall k :: k in devices ==> k == AddKey(devices[k].vendorId, devices[k].productId)
  }

  /** The counts `print_status` logs. */
  datatype StatusCounts = StatusCounts(total: nat, active: nat, disconnected: nat, errors: nat)

  /** The three variants `print_status` filters on. */
  datatype StateKind = ActiveKind | DisconnectedKind | ErrorKind

  function KindOf(s: DeviceState): StateKind
  {
    match s
    case Active => ActiveKind
    case Disconnected => DisconnectedKind
    case Error(_) => ErrorKind
  }

  /** `iter().filter(|d| matches!(d.state, ..))`: the devices of the given kind, in order. */
  function OfKind(ds: seq<ManagedDevice>, kind: StateKind): (r: seq<ManagedDevice>)
    ensures |r| <= |ds|
    ensures forall d :: d in r ==> d in ds && KindOf(d.state) == kind
    decreases |ds|
  {
    if ds == [] then []
    else (if KindOf(ds[0].state) == kind then [ds[0]] else []) + OfKind(ds[1..], kind)
  }

  /** The keys of the map whose entry is of the given kind. */
  ghost function KeysOfKind(devices: Devices, kind: StateKind): set<string>
  {
    set k | k in devices && KindOf(devices[k].state) == kind
  }

  /** `DeviceRegistry`. The mutex is not modelled. */
  class DeviceRegistry {
    var devices: Devices

    /** `DeviceRegistry::new`. */
    constructor ()
      ensures devices == map[]
    {
      devices := map[];
    }

    /** `add_device`, with the descriptor's ids as arguments. */
    method AddDevice(vendorId: u16, productId: u16)
      modifies this
      ensures devices == Added(old(devices), vendorId, productId)
    {
      var deviceKey := AddKey(vendorId, productId);
      var deviceName := DeviceName(vendorId, productId);
      var managedDevice := ManagedDevice(deviceName, vendorId, productId, Active);
      if deviceKey in devices {
        return;
      }
      devices := devices[deviceKey := managedDevice];
    }

    /** `remove_device`. */
    method RemoveDevice(vendorId: u16, productId: u16)
      modifies this
      ensures devices == Removed(old(devices), vendorId, productId)
    {
      var deviceKey := LookupKey(vendorId, productId);
      if deviceKey in devices {
        devices := devices - {deviceKey};
      }
    }

    /** `update_device_state`. */
    method UpdateDeviceState(vendorId: u16, productId: u16, state: DeviceState)
      modifies this
      ensures devices == Updated(old(devices), vendorId, productId, state)
    {
      var deviceKey := LookupKey(vendorId, productId);
      if deviceKey in devices {
        devices := devices[deviceKey := devices[deviceKey].(state := state)];
      }
    }

    /** `device_exists`. */
    predicate DeviceExists(vendorId: u16, productId: u16)
      reads this
    {
      LookupKey(vendorId, productId) in devices
    }

    /** `get_device`. */
    function GetDevice(vendorId: u16, productId: u16): Option<ManagedDevice>
      reads this
    {
      var key := LookupKey(vendorId, productId);
      if key in devices then Some(devices[key]) else None
    }

    /** `get_all_devices`: every value once, in the map's iteration order, which is left
        open; `order` is the sequence of keys visited. */
    method GetAllDevices() returns (result: seq<ManagedDevice>, ghost order: seq<string>)
      ensures Distinct(order) && forall k :: k in order <==> k in devices
      ensures |result| == |order| == |devices|
      ensures forall i :: 0 <= i < |result| ==> order[i] in devices && result[i] == devices[order[i]]
    {
      result, order := CollectValues(devices, false);
    }

    /** `get_active_devices`: the values whose state is `Active`, each once, in iteration
        order. */
    method GetActiveDevices() returns (result: seq<ManagedDevice>, ghost order: seq<string>)
      ensures Distinct(order) && forall k :: k in order <==> k in devices && devices[k].state.Active?
      ensures |result| == |order|
      ensures forall i :: 0 <= i < |result| ==> order[i] in devices && result[i] == devices[order[i]]
      ensures forall d :: d in result ==> d.state.Active?
    {
      result, order := CollectValues(devices, true);
    }

    /** The counts `print_status` logs: the length of `get_all_devices` and the length of
        its filter by each variant. */
    method StatusCountsOf() returns (c: StatusCounts)
      ensures c.total == |devices|
      ensures c.active == |KeysOfKind(devices, ActiveKind)|
      ensures c.disconnected == |KeysOfKind(devices, DisconnectedKind)|
      ensures c.errors == |KeysOfKind(devices, ErrorKind)|
      ensures c.active + c.disconnected + c.errors == c.total
    {
      var all, order := GetAllDevices();
      c := StatusCounts(|all|, |OfKind(all, ActiveKind)|, |OfKind(all, DisconnectedKind)|, |OfKind(all, ErrorKind)|);
      KindsPartition(all);
      FilterCountsMap(devices, order, all, ActiveKind);
      FilterCountsMap(devices, order, all, DisconnectedKind);
      FilterCountsMap(devices, order, all, ErrorKind);
    }
  }

  /** Walks the map's keys in an unspecified order, keeping all values or only the active
      ones. */
  method CollectValues(devices: Devices, activeOnly: bool) returns (result: seq<ManagedDevice>, ghost order: seq<string>)
    ensures Distinct(order)
    ensures forall k :: k in order <==> k in devices && (activeOnly ==> devices[k].state.Active?)
    ensures |result| == |order|
    ensures !activeOnly ==> |order| == |devices|
    ensures forall i :: 0 <= i < |result| ==> order[i] in devices && result[i] == devices[order[i]]
  {
    result := [];
    order := [];
    var remaining := devices.Keys;
    ghost var visited: set<string> := {};
    while remaining != {}
      invariant remaining <= devices.Keys && visited == devices.Keys - remaining
      invariant Collected(devices, activeOnly, visited, order, result)
      decreases |remaining|
    {
      var k :| k in remaining;
      CollectStep(devices, activeOnly, k, visited, order, result);
      if !activeOnly || devices[k].state.Active? {
        result := result + [devices[k]];
        order := order + [k];
      }
      remaining := remaining - {k};
      visited := visited + {k};
    }
  }

  /** What `CollectValues` has gathered after visiting the keys `visited`: each wanted key
      once, with its entry, and every key when all are wanted. */
  ghost predicate Collected(devices: Devices, activeOnly: bool, visited: set<string>, order: seq<string>, result: seq<ManagedDevice>)
  {
    && Distinct(order)
    && (forall k :: k in order <==> k in visited && k in devices && (activeOnly ==> devices[k].state.Active?))
    && (!activeOnly ==> |order| == |visited|)
    && |result| == |order|
    && (forall i :: 0 <= i < |result| ==> order[i] in devices && result[i] == devices[order[i]])
  }

  /** One step of `CollectValues`: visiting a new key, and collecting it when it is
      wanted, keeps what was gathered consistent. */
  lemma CollectStep(devices: Devices, activeOnly: bool, k: string, visited: set<string>, order: seq<string>, result: seq<ManagedDevice>)
    requires k in devices && k !in visited
    requires Collected(devices, activeOnly, visited, order, result)
    ensures (!activeOnly || devices[k].state.Active?) ==>
      Collected(devices, activeOnly, visited + {k}, order + [k], result + [devices[k]])
    ensures !(!activeOnly || devices[k].state.Active?) ==>
      Collected(devices, activeOnly, visited + {k}, order, result)
  {
    assert k !in order;
    if !activeOnly || devices[k].state.Active? {
      var o, r := order + [k], result + [devices[k]];
      forall a, b | 0 <= a < b < |o|
        ensures o[a] != o[b]
      {
        if b == |order| {
          assert o[a] == order[a];
        } else {
          assert o[a] == order[a] && o[b] == order[b];
        }
      }
      forall i | 0 <= i < |r|
        ensures o[i] in devices && r[i] == devices[o[i]]
      {
        if i < |order| {
          assert o[i] == order[i] && r[i] == result[i];
        }
      }
    }
  }

  // ---- Properties ----

  /** Insert-if-absent: a present key leaves the map as it is, an absent one gets `d`;
      the key is present afterwards, a second insert changes nothing, and every other key
      keeps its presence and its entry. */
  lemma PutIfAbsentFacts(devices: Devices, key: string, d: ManagedDevice)
    ensures var after := PutIfAbsent(devices, key, d);
      && key in after
      && (key in devices ==> after == devices)
      && (key !in devices ==> after[key] == d)
      && PutIfAbsent(after, key, d) == after
      && (forall k :: k in devices ==> k in after && after[k] == devices[k])
      && (forall k :: k != key ==> (k in after <==> k in devices))
  {
  }

  /** Removal deletes exactly its key: every other key keeps its presence and its entry,
      and an absent key leaves the map as it is. */
  lemma RemoveFacts(devices: Devices, key: string)
    ensures key !in devices - {key}
    ensures forall k :: k != key ==>
      (k in devices - {key} <==> k in devices) && (k in devices ==> (devices - {key})[k] == devices[k])
    ensures key !in devices ==> devices - {key} == devices
  {
  }

  /** Setting a state keeps the keys, every other entry, and the name and ids of the
      changed one, whose state becomes `state`; an absent key leaves the map as it is. */
  lemma SetStateFacts(devices: Devices, key: string, state: DeviceState)
    ensures var after := SetState(devices, key, state);
      && after.Keys == devices.Keys
      && (forall k :: k in devices && k != key ==> after[k] == devices[k])
      && (forall k :: k in devices ==> after[k].name == devices[k].name && IdOf(after[k]) == IdOf(devices[k]))
      && (key in devices ==> after[key].state == state)
      && (key !in devices ==> after == devices)
  {
  }

  /** In the thousands the leading decimal digit is at least 1 and grows faster than the
      leading hexadecimal one, so the two never agree. */
  lemma LeadingDigitsDiffer(p: nat)
    requires 1000 <= p < 10000
    ensures p / 1000 != p / 0x1000
  {
    if p < 0x1000 {
      assert p / 0x1000 == 0;
    } else if p < 0x2000 {
      assert p / 0x1000 == 1 && p / 1000 >= 4;
    } else {
      assert p / 0x1000 == 2 && p / 1000 >= 8;
    }
  }

  /** For the same pair the insertion key and the lookup key always differ. Below vendor
      0x1000 the insertion key starts with a space and the lookup key with a digit. From
      there on the product part decides: below 1000 it starts with a space, from 10000 on it
      is five characters long, and in between its leading decimal digit `p / 1000` never
      equals the leading hexadecimal digit `p / 0x1000`. */
  lemma KeysNeverCoincide(vendorId: u16, productId: u16)
    ensures AddKey(vendorId, productId) != LookupKey(vendorId, productId)
  {
    var hv, dp := HexSpacePad4(vendorId), DecSpacePad4(productId);
    var zv, zp := HexZeroPad4(vendorId), HexZeroPad4(productId);
    HexPad4Leading(vendorId);
    HexPad4Leading(productId);
    DecSpacePad4Shape(productId);
    if vendorId >= 0x1000 && 1000 <= productId < 10000 {
      LeadingDigitsDiffer(productId);
      DigitCharInjective(productId / 1000, productId / 0x1000);
    }
    assert hv[0] != zv[0] || dp[0] != zp[0] || |dp| != |zp|;
    JoinedDiffer(hv, dp, zv, zp);
  }

  /** Two keys `h:d` and `z:e` with four-character first halves differ when the halves
      differ in their first character or the second halves in length. */
  lemma JoinedDiffer(h: string, d: string, z: string, e: string)
    requires |h| == 4 && |z| == 4 && |d| >= 1 && |e| >= 1
    requires h[0] != z[0] || d[0] != e[0] || |d| != |e|
    ensures h + ":" + d != z + ":" + e
  {
    var a, b := h + ":" + d, z + ":" + e;
    if |d| == |e| {
      assert a[0] == h[0] && b[0] == z[0];
      assert a[5] == d[0] && b[5] == e[0];
    } else {
      assert |a| != |b|;
    }
  }

  /** A lookup key is made of digits and one colon: it never holds a space. */
  lemma LookupKeyUnspaced(vendorId: u16, productId: u16)
    ensures ' ' !in LookupKey(vendorId, productId)
  {
    HexWidth(vendorId);
    HexWidth(productId);
    var zv, zp := HexZeroPad4(vendorId), HexZeroPad4(productId);
    forall i | 0 <= i < |zv|
      ensures zv[i] != ' '
    {
      PadLeftAt(Hex(vendorId), 4, '0', i);
    }
    forall i | 0 <= i < |zp|
      ensures zp[i] != ' '
    {
      PadLeftAt(Hex(productId), 4, '0', i);
    }
    assert LookupKey(vendorId, productId) == zv + ":" + zp;
  }

  /** An insertion key holds a space whenever the vendor id has fewer than four
      hexadecimal digits or the product id fewer than four decimal ones. */
  lemma AddKeySpaced(vendorId: u16, productId: u16)
    requires vendorId < 0x1000 || productId < 1000
    ensures ' ' in AddKey(vendorId, productId)
  {
    var hv, dp := HexSpacePad4(vendorId), DecSpacePad4(productId);
    HexPad4Leading(vendorId);
    DecSpacePad4Shape(productId);
    JoinedAt(hv, dp);
  }

  /** The first character of `h:d` is that of `h`, the sixth that of `d`, for a
      four-character `h`. */
  lemma JoinedAt(h: string, d: string)
    requires |h| == 4 && |d| >= 1
    ensures (h + ":" + d)[0] == h[0] && (h + ":" + d)[5] == d[0]
  {
  }

  /** Different pairs can collide across the two formats: the insertion key of
      (0x17cc, 1234) is the lookup key of (0x17cc, 0x1234). */
  lemma CrossPairCollision()
    ensures AddKey(0x17cc, 1234) == LookupKey(0x17cc, 0x1234)
  {
    HexOf17cc();
    DecOf1234();
    HexOf1234();
  }

  lemma HexOf17cc()
    ensures Hex(0x17cc) == "17cc"
  {
    assert Hex(0x1) == "1";
    assert Hex(0x17) == Hex(0x1) + "7";
    assert Hex(0x17c) == Hex(0x17) + "c";
    assert Hex(0x17cc) == Hex(0x17c) + "c";
  }

  lemma DecOf1234()
    ensures Dec(1234) == "1234"
  {
    assert Dec(1) == "1";
    assert Dec(12) == Dec(1) + "2";
    assert Dec(123) == Dec(12) + "3";
    assert Dec(1234) == Dec(123) + "4";
  }

  lemma HexOf1234()
    ensures Hex(0x1234) == "1234"
  {
    assert Hex(0x1) == "1";
    assert Hex(0x12) == Hex(0x1) + "2";
    assert Hex(0x123) == Hex(0x12) + "3";
    assert Hex(0x1234) == Hex(0x123) + "4";
  }

  /** The insertion key determines the pair: the hexadecimal part has no spaces, so each
      half is recovered from its padding. */
  lemma AddKeyInjective(v1: u16, p1: u16, v2: u16, p2: u16)
    requires AddKey(v1, p1) == AddKey(v2, p2)
    ensures v1 == v2 && p1 == p2
  {
    HexPad4Length(v1);
    HexPad4Length(v2);
    var k := AddKey(v1, p1);
    assert HexSpacePad4(v1) == k[..4] == HexSpacePad4(v2);
    assert DecSpacePad4(p1) == k[5..] == DecSpacePad4(p2);
    assert ' ' !in Hex(v1) && ' ' !in Hex(v2) && ' ' !in Dec(p1) && ' ' !in Dec(p2);
    PadLeftInjective(Hex(v1), Hex(v2), 4, ' ');
    PadLeftInjective(Dec(p1), Dec(p2), 4, ' ');
    DigitsInjective(v1, v2, 16);
    DigitsInjective(p1, p2, 10);
  }

  /** Adding when the insertion key is present changes nothing; adding twice is adding
      once; a new entry is `Active`, named after the insertion key; no existing entry is
      touched. */
  lemma AddedProperties(devices: Devices, vendorId: u16, productId: u16)
    ensures AddKey(vendorId, productId) in devices ==> Added(devices, vendorId, productId) == devices
    ensures Added(Added(devices, vendorId, productId), vendorId, productId) == Added(devices, vendorId, productId)
    ensures AddKey(vendorId, productId) !in devices ==>
      Added(devices, vendorId, productId)[AddKey(vendorId, productId)]
        == ManagedDevice("Device " + AddKey(vendorId, productId), vendorId, productId, Active)
    ensures forall k :: k in devices ==> k in Added(devices, vendorId, productId) && Added(devices, vendorId, productId)[k] == devices[k]
  {
    PutIfAbsentFacts(devices, AddKey(vendorId, productId), NewEntry(vendorId, productId));
  }

  /** What `add_device` put in is invisible to the same pair's lookups: `device_exists`,
      `get_device`, `remove_device` and `update_device_state` behave as if the add had not
      happened. */
  lemma AddedInvisibleToSamePair(devices: Devices, vendorId: u16, productId: u16, state: DeviceState)
    ensures var key := LookupKey(vendorId, productId);
      var after := Added(devices, vendorId, productId);
      && (key in after <==> key in devices)
      && (key in devices ==> after[key] == devices[key])
    ensures AddKey(vendorId, productId) in Removed(Added(devices, vendorId, productId), vendorId, productId)
    ensures var after := Added(devices, vendorId, productId);
      Updated(after, vendorId, productId, state)[AddKey(vendorId, productId)] == after[AddKey(vendorId, productId)]
  {
    var a, l := AddKey(vendorId, productId), LookupKey(vendorId, productId);
    KeysNeverCoincide(vendorId, productId);
    PutIfAbsentFacts(devices, a, NewEntry(vendorId, productId));
    var after := Added(devices, vendorId, productId);
    RemoveFacts(after, l);
    SetStateFacts(after, l, state);
  }

  /** Removing deletes exactly the looked-up entry; removing again changes nothing. */
  lemma RemovedProperties(devices: Devices, vendorId: u16, productId: u16)
    ensures LookupKey(vendorId, productId) !in Removed(devices, vendorId, productId)
    ensures forall k :: k != LookupKey(vendorId, productId) ==>
      (k in Removed(devices, vendorId, productId) <==> k in devices)
      && (k in devices ==> Removed(devices, vendorId, productId)[k] == devices[k])
    ensures LookupKey(vendorId, productId) !in devices ==> Removed(devices, vendorId, productId) == devices
    ensures Removed(Removed(devices, vendorId, productId), vendorId, productId) == Removed(devices, vendorId, productId)
  {
    RemoveFacts(devices, LookupKey(vendorId, productId));
    RemoveFacts(Removed(devices, vendorId, productId), LookupKey(vendorId, productId));
  }

  /** Updating replaces only the state of the looked-up entry; name, ids, keys and every
      other entry stay; an absent key leaves the map unchanged. */
  lemma UpdatedProperties(devices: Devices, vendorId: u16, productId: u16, state: DeviceState)
    ensures var after := Updated(devices, vendorId, productId, state);
      && after.Keys == devices.Keys
      && (forall k :: k in devices && k != LookupKey(vendorId, productId) ==> after[k] == devices[k])
      && (forall k :: k in devices ==> after[k].name == devices[k].name && IdOf(after[k]) == IdOf(devices[k]))
      && (LookupKey(vendorId, productId) in devices ==> after[LookupKey(vendorId, productId)].state == state)
    ensures LookupKey(vendorId, productId) !in devices ==> Updated(devices, vendorId, productId, state) == devices
  {
    SetStateFacts(devices, LookupKey(vendorId, productId), state);
  }

  /** `add_device` keeps every entry under its own insertion key. */
  lemma AddedWellKeyed(devices: Devices, vendorId: u16, productId: u16)
    requires WellKeyed(devices)
    ensures WellKeyed(Added(devices, vendorId, productId))
  {
    var key := AddKey(vendorId, productId);
    PutIfAbsentFacts(devices, key, NewEntry(vendorId, productId));
    var after := Added(devices, vendorId, productId);
    forall k | k in after
      ensures k == AddKey(after[k].vendorId, after[k].productId)
    {
      if k !in devices {
        assert k == key && after[k] == NewEntry(vendorId, productId);
      }
    }
  }

  /** `remove_device` keeps every entry under its own insertion key. */
  lemma RemovedWellKeyed(devices: Devices, vendorId: u16, productId: u16)
    requires WellKeyed(devices)
    ensures WellKeyed(Removed(devices, vendorId, productId))
  {
    var key := LookupKey(vendorId, productId);
    RemoveFacts(devices, key);
    var after := Removed(devices, vendorId, productId);
    forall k | k in after
      ensures k == AddKey(after[k].vendorId, after[k].productId)
    {
      assert k != key && k in devices;
    }
  }

  /** `update_device_state` keeps every entry under its own insertion key. */
  lemma UpdatedWellKeyed(devices: Devices, vendorId: u16, productId: u16, state: DeviceState)
    requires WellKeyed(devices)
    ensures WellKeyed(Updated(devices, vendorId, productId, state))
  {
    SetStateFacts(devices, LookupKey(vendorId, productId), state);
    var after := Updated(devices, vendorId, productId, state);
    forall k | k in after
      ensures k == AddKey(after[k].vendorId, after[k].productId)
    {
      assert k in devices && IdOf(after[k]) == IdOf(devices[k]);
    }
  }

  /** In a registry built by `add_device`, looking up a pair never yields that pair's own
      entry, and updating a pair never changes that pair's own entry. */
  lemma LookupsMissOwnEntry(devices: Devices, vendorId: u16, productId: u16, state: DeviceState)
    requires WellKeyed(devices)
    ensures var key := LookupKey(vendorId, productId);
      key in devices ==> IdOf(devices[key]) != DeviceId(vendorId, productId)
    ensures forall k :: k in devices && IdOf(devices[k]) == DeviceId(vendorId, productId) ==>
      Updated(devices, vendorId, productId, state)[k] == devices[k]
  {
    KeysNeverCoincide(vendorId, productId);
    SetStateFacts(devices, LookupKey(vendorId, productId), state);
  }

  /** `device_exists` holds exactly when `get_device` finds something. */
  lemma ExistsIffGetDevice(r: DeviceRegistry, vendorId: u16, productId: u16)
    ensures r.DeviceExists(vendorId, productId) <==> r.GetDevice(vendorId, productId).Some?
    ensures r.GetDevice(vendorId, productId).Some? ==>
      r.GetDevice(vendorId, productId).value == r.devices[LookupKey(vendorId, productId)]
  {
  }

  /** Every device is of exactly one kind, so the three filters add up to the list. */
  lemma {:induction false} KindsPartition(ds: seq<ManagedDevice>)
    ensures |OfKind(ds, ActiveKind)| + |OfKind(ds, DisconnectedKind)| + |OfKind(ds, ErrorKind)| == |ds|
    decreases |ds|
  {
    if ds != [] {
      KindsPartition(ds[1..]);
    }
  }

  /** The keys of `order` whose entry is of the given kind. */
  ghost function ListedOfKind(devices: Devices, order: seq<string>, kind: StateKind): set<string>
    decreases |order|
  {
    if order == [] then {}
    else
      var here := if order[0] in devices && KindOf(devices[order[0]].state) == kind then {order[0]} else {};
      here + ListedOfKind(devices, order[1..], kind)
  }

  /** A key is listed with a kind exactly when it is in `order` and its entry has that kind. */
  lemma {:induction false} ListedOfKindMembers(devices: Devices, order: seq<string>, kind: StateKind, k: string)
    ensures k in ListedOfKind(devices, order, kind) <==> k in order && k in devices && KindOf(devices[k].state) == kind
    decreases |order|
  {
    if order != [] {
      ListedOfKindMembers(devices, order[1..], kind, k);
      assert k in order <==> k == order[0] || k in order[1..];
    }
  }

  /** Filtering the values listed in the key order `order` counts the listed keys of
      that kind, each once. */
  lemma {:induction false} FilterCountsKeys(devices: Devices, order: seq<string>, all: seq<ManagedDevice>, kind: StateKind)
    requires Distinct(order) && |all| == |order|
    requires forall i :: 0 <= i < |order| ==> order[i] in devices && all[i] == devices[order[i]]
    ensures |OfKind(all, kind)| == |ListedOfKind(devices, order, kind)|
    decreases |order|
  {
    if order != [] {
      var tail := order[1..];
      assert Distinct(tail) by {
        forall i, j | 0 <= i < j < |tail|
          ensures tail[i] != tail[j]
        {
          assert tail[i] == order[i + 1] && tail[j] == order[j + 1];
        }
      }
      assert order[0] !in tail by {
        forall j | 0 <= j < |tail|
          ensures tail[j] != order[0]
        {
          assert tail[j] == order[j + 1];
        }
      }
      ListedOfKindMembers(devices, tail, kind, order[0]);
      FilterCountsKeys(devices, tail, all[1..], kind);
      var wanted := KindOf(all[0].state) == kind;
      assert OfKind(all, kind) == (if wanted then [all[0]] else []) + OfKind(all[1..], kind);
      assert ListedOfKind(devices, order, kind) == (if wanted then {order[0]} else {}) + ListedOfKind(devices, tail, kind);
    }
  }

  /** Filtering `get_all_devices` by a kind counts the map's entries of that kind. */
  lemma FilterCountsMap(devices: Devices, order: seq<string>, all: seq<ManagedDevice>, kind: StateKind)
    requires Distinct(order) && |all| == |order|
    requires forall k :: k in order <==> k in devices
    requires forall i :: 0 <= i < |order| ==> order[i] in devices && all[i] == devices[order[i]]
    ensures |OfKind(all, kind)| == |KeysOfKind(devices, kind)|
  {
    FilterCountsKeys(devices, order, all, kind);
    forall k
      ensures k in ListedOfKind(devices, order, kind) <==> k in KeysOfKind(devices, kind)
    {
      ListedOfKindMembers(devices, order, kind, k);
    }
    assert ListedOfKind(devices, order, kind) == KeysOfKind(devices, kind);
  }
}
