/** `HidDeviceManager`: the hidapi device manager. Like the libusb manager it keeps a
    `Vec<ManagedDevice>`, a map of running readers keyed by (vendor, product) and an event
    channel, but its monitor also opens newly seen devices and stops the readers of
    departed ones. hidapi is an input: `device_list()` is the sequence of device infos,
    each with its ids, its product string if it has one, and whether `open_device`
    succeeds for it. The event channel is the sequence `events` of what was sent on it. */
module HidDevices {
  import opened Common
  import opened ForeignInstrumentsTypes
  import opened DeviceList
  import opened DeviceReader

  // ---- Interest ----

  /** `is_native_instruments_device`: the product id plays no part. */
  function IsNativeInstrumentsDevice(vid: u16, pid: u16): bool
  {
    vid == 0x17cc
  }

  /** `is_interesting_device`: Native Instruments, M-Audio, Focusrite or Arturia. */
  function IsInterestingDevice(vid: u16, pid: u16): bool
  {
    IsNativeInstrumentsDevice(vid, pid) || vid == 0x0763 || vid == 0x1235 || vid == 0x1bcf
  }

  // ---- Bookkeeping ----

  /** One entry of `device_list()`. */
  datatype HidDeviceInfo = HidDeviceInfo(id: DeviceId, productString: Option<string>, opens: bool)

  /** `DeviceReaderHandle`; its stop flag and thread handle are not modelled. */
  datatype ReaderHandle = ReaderHandle

  /** The manager's device list, readers map and the events sent so far. */
  datatype Bookkeeping = Bookkeeping(devices: seq<ManagedDevice>, readers: map<DeviceId, ReaderHandle>, events: seq<Event>)

  predicate Interesting(info: HidDeviceInfo)
  {
    IsInterestingDevice(info.id.vendorId, info.id.productId)
  }

  /** `product_string().unwrap_or("Unknown")`. */
  function ProductName(info: HidDeviceInfo): string
  {
    if info.productString.Some? then info.productString.value else "Unknown"
  }

  /** The entry the scan pushes for a device it opened. */
  function NewEntry(info: HidDeviceInfo): ManagedDevice
  {
    ManagedDevice(ProductName(info), info.id.vendorId, info.id.productId, Active)
  }

  /** One iteration of `scan_initial_devices`: an interesting device that opens is pushed,
      announced and given a reader. */
  function ScanStep(s: Bookkeeping, info: HidDeviceInfo): Bookkeeping
  {
    if Interesting(info) && info.opens
    then Bookkeeping(s.devices + [NewEntry(info)], s.readers[info.id := ReaderHandle], s.events + [DeviceConnected(info.id)])
    else s
  }

  /** The bookkeeping after the scan has visited `infos` in order. */
  function ScanSpec(s: Bookkeeping, infos: seq<HidDeviceInfo>): Bookkeeping
    decreases |infos|
  {
    if infos == [] then s else ScanStep(ScanSpec(s, infos[..|infos| - 1]), infos[|infos| - 1])
  }

  /** The infos the scan opens, in order, repeats included. */
  function ScanOpened(infos: seq<HidDeviceInfo>): seq<HidDeviceInfo>
    decreases |infos|
  {
    if infos == [] then []
    else
      var info := infos[|infos| - 1];
      ScanOpened(infos[..|infos| - 1]) + (if Interesting(info) && info.opens then [info] else [])
  }

  function NewEntries(infos: seq<HidDeviceInfo>): (r: seq<ManagedDevice>)
    ensures |r| == |infos| && forall i :: 0 <= i < |infos| ==> r[i] == NewEntry(infos[i])
  {
    seq(|infos|, i requires 0 <= i < |infos| => NewEntry(infos[i]))
  }

  function Ids(infos: seq<HidDeviceInfo>): (r: seq<DeviceId>)
    ensures |r| == |infos| && forall i :: 0 <= i < |infos| ==> r[i] == infos[i].id
  {
    seq(|infos|, i requires 0 <= i < |infos| => infos[i].id)
  }

  // ---- Monitor ----

  /** The pairs a monitor tick records in `current_devices`: every interesting pair
      listed, whether or not it opens. */
  function Present(infos: seq<HidDeviceInfo>): set<DeviceId>
    decreases |infos|
  {
    if infos == [] then {}
    else
      var info := infos[|infos| - 1];
      Present(infos[..|infos| - 1]) + (if Interesting(info) then {info.id} else {})
  }

  /** One iteration of a tick's first loop: a newly seen interesting pair that opens is
      announced and given a reader; a failed open only warns. */
  function ArriveStep(s: Bookkeeping, known: set<DeviceId>, info: HidDeviceInfo): Bookkeeping
  {
    if Interesting(info) && info.id !in known && info.opens
    then s.(readers := s.readers[info.id := ReaderHandle], events := s.events + [DeviceConnected(info.id)])
    else s
  }

  /** The bookkeeping after a tick's first loop has visited `infos` in order. */
  function ArriveSpec(s: Bookkeeping, known: set<DeviceId>, infos: seq<HidDeviceInfo>): Bookkeeping
    decreases |infos|
  {
    if infos == [] then s else ArriveStep(ArriveSpec(s, known, infos[..|infos| - 1]), known, infos[|infos| - 1])
  }

  /** The pairs a tick opens, in order, repeats included. */
  function NewlyOpened(known: set<DeviceId>, infos: seq<HidDeviceInfo>): seq<DeviceId>
    decreases |infos|
  {
    if infos == [] then []
    else
      var info := infos[|infos| - 1];
      NewlyOpened(known, infos[..|infos| - 1]) + (if Interesting(info) && info.id !in known && info.opens then [info.id] else [])
  }

  /** The pairs known when tick `i` of a monitor run starts: none before the first tick,
      then those present on the tick before. */
  function KnownBefore(ticks: seq<seq<HidDeviceInfo>>, i: nat): set<DeviceId>
    requires i <= |ticks|
  {
    if i == 0 then {} else Present(ticks[i - 1])
  }

  /** One monitor tick: the first loop, then a `DeviceDisconnected` for each known pair that
      is gone, met in the order `gone`, whose reader is dropped. */
  function TickSpec(s: Bookkeeping, known: set<DeviceId>, infos: seq<HidDeviceInfo>, gone: seq<DeviceId>): Bookkeeping
  {
    var a := ArriveSpec(s, known, infos);
    Bookkeeping(s.devices, a.readers - (known - Present(infos)), a.events + DisconnectedEvents(gone))
  }

  /** The bookkeeping after the first `|gones|` ticks of a monitor run, tick `i` meeting its
      departed pairs in the order `gones[i]`. */
  function MonitorSpec(s: Bookkeeping, ticks: seq<seq<HidDeviceInfo>>, gones: seq<seq<DeviceId>>): Bookkeeping
    requires |gones| <= |ticks|
    decreases |gones|
  {
    if gones == [] then s
    else
      var n := |gones| - 1;
      TickSpec(MonitorSpec(s, ticks, gones[..n]), KnownBefore(ticks, n), ticks[n], gones[n])
  }

  /** `gones[i]` lists, once each, the pairs known at the start of tick `i` and no longer
      present on it: the ones the tick's second loop meets. */
  ghost predicate DepartureOrders(ticks: seq<seq<HidDeviceInfo>>, gones: seq<seq<DeviceId>>)
  {
    && |gones| <= |ticks|
    && forall i :: 0 <= i < |gones| ==>
      && Distinct(gones[i])
      && forall id :: id in gones[i] <==> id in KnownBefore(ticks, i) && id !in Present(ticks[i])
  }

  class HidDeviceManager {
    var devices: seq<ManagedDevice>
    var readers: map<DeviceId, ReaderHandle>
    var events: seq<Event>
    var running: bool

    function Snapshot(): Bookkeeping
      reads this
    {
      Bookkeeping(devices, readers, events)
    }

    constructor ()
      ensures devices == [] && readers == map[] && events == [] && running
    {
      devices := [];
      readers := map[];
      events := [];
      running := true;
    }

    /** `start_reader_thread`: the entry for the pair is inserted, replacing any earlier
        one. What the reader then sends is `ReaderEvents` under `EndOnAnyError`. */
    method StartReaderThread(id: DeviceId)
      modifies this
      ensures readers == old(readers)[id := ReaderHandle]
      ensures devices == old(devices) && events == old(events) && running == old(running)
    {
      readers := readers[id := ReaderHandle];
    }

    /** `stop_reader_thread`: the entry for the pair, if any, is removed. */
    method StopReaderThread(id: DeviceId)
      modifies this
      ensures readers == old(readers) - {id}
      ensures devices == old(devices) && events == old(events) && running == old(running)
    {
      if id in readers {
        readers := readers - {id};
      }
    }

    /** `scan_initial_devices`. */
    method ScanInitialDevices(infos: seq<HidDeviceInfo>) returns (r: Result<(), string>)
      modifies this
      ensures r == Ok(()) && Snapshot() == ScanSpec(old(Snapshot()), infos) && running == old(running)
    {
      for i := 0 to |infos|
        invariant Snapshot() == ScanSpec(old(Snapshot()), infos[..i]) && running == old(running)
      {
        assert infos[..i + 1][..i] == infos[..i];
        var info := infos[i];
        if IsInterestingDevice(info.id.vendorId, info.id.productId) {
          if info.opens {
            devices := devices + [NewEntry(info)];
            events := events + [DeviceConnected(info.id)];
            StartReaderThread(info.id);
          }
        }
      }
      assert infos[..|infos|] == infos;
      return Ok(());
    }

    /** One tick of the monitor thread, given the pairs known from the previous tick: the
        first loop opens newly seen pairs, the second walks the known pairs in the map's
        iteration order and, for each that is gone, sends `DeviceDisconnected` and stops
        its reader. `gone` is the order in which the departed pairs were met. Returns the
        pairs now present, which become the known pairs. hidapi's `device_list()`
        (src/hid_devices.rs:166) is the list cached by `HidApi::new()` or
        `refresh_devices()`; the monitor never refreshes it, so in the program every tick
        sees the list the scan saw. The model takes any list per tick, which includes
        that case. */
    method MonitorTick(known: set<DeviceId>, infos: seq<HidDeviceInfo>)
      returns (current: set<DeviceId>, ghost gone: seq<DeviceId>)
      modifies this
      ensures current == Present(infos)
      ensures Distinct(gone) && forall id :: id in gone <==> id in known && id !in current
      ensures var a := ArriveSpec(old(Snapshot()), known, infos);
        && events == a.events + DisconnectedEvents(gone)
        && readers == a.readers - (known - current)
      ensures devices == old(devices) && running == old(running)
    {
      current := {};
      for i := 0 to |infos|
        invariant current == Present(infos[..i])
        invariant Snapshot() == ArriveSpec(old(Snapshot()), known, infos[..i])
        invariant devices == old(devices) && running == old(running)
      {
        assert infos[..i + 1][..i] == infos[..i];
        var info := infos[i];
        if IsInterestingDevice(info.id.vendorId, info.id.productId) {
          current := current + {info.id};
          if info.id !in known {
            if info.opens {
              events := events + [DeviceConnected(info.id)];
              readers := readers[info.id := ReaderHandle];
            }
          }
        }
      }
      assert infos[..|infos|] == infos;
      ghost var arrived := Snapshot();
      gone := [];
      var remaining := known;
      while remaining != {}
        invariant remaining <= known
        invariant Distinct(gone)
        invariant forall id :: id in gone <==> id in known && id !in current && id !in remaining
        invariant events == arrived.events + DisconnectedEvents(gone)
        invariant readers == arrived.readers - ((known - remaining) - current)
        invariant devices == arrived.devices && running == old(running)
        decreases remaining
      {
        var key :| key in remaining;
        if key !in current {
          events := events + [DeviceDisconnected(key)];
          StopReaderThread(key);
          gone := gone + [key];
        }
        assert (known - (remaining - {key})) - current == ((known - remaining) - current) + (if key in current then {} else {key});
        remaining := remaining - {key};
      }
    }

    /** The monitor thread of `start_monitoring`, over the device lists its ticks see
        while `running` stays set: `known` starts empty and each tick replaces it with the
        pairs present. `gones[i]` is the order in which tick `i` met its departed pairs.
        Returns the pairs known when the loop ends. */
    method Monitor(ticks: seq<seq<HidDeviceInfo>>) returns (known: set<DeviceId>, ghost gones: seq<seq<DeviceId>>)
      modifies this
      ensures devices == old(devices) && running == old(running)
      ensures |gones| == (if running then |ticks| else 0)
      ensures DepartureOrders(ticks, gones)
      ensures Snapshot() == MonitorSpec(old(Snapshot()), ticks, gones)
      ensures known == KnownBefore(ticks, |gones|)
    {
      known := {};
      gones := [];
      var i := 0;
      while running && i < |ticks|
        invariant i <= |ticks| && |gones| == i
        invariant devices == old(devices) && running == old(running)
        invariant !running ==> i == 0
        invariant DepartureOrders(ticks, gones)
        invariant Snapshot() == MonitorSpec(old(Snapshot()), ticks, gones)
        invariant known == KnownBefore(ticks, i)
      {
        ghost var before := Snapshot();
        var current, gone := MonitorTick(known, ticks[i]);
        assert Snapshot() == TickSpec(before, known, ticks[i], gone);
        MonitorStep(old(Snapshot()), ticks, gones, gone);
        known := current;
        gones := gones + [gone];
        i := i + 1;
      }
    }

    /** `stop_monitoring`: clear `running` and drain the readers map, stopping each reader. */
    method StopMonitoring()
      modifies this
      ensures !running && readers == map[]
      ensures devices == old(devices) && events == old(events)
    {
      running := false;
      while readers != map[]
        invariant devices == old(devices) && events == old(events) && !running
        decreases |readers.Keys|
      {
        var key :| key in readers;
        readers := readers - {key};
      }
    }

    /** `get_devices`. */
    method GetDevices() returns (r: seq<ManagedDevice>)
      ensures r == devices
    {
      r := devices;
    }

    /** `update_device_state`: the first entry with these ids gets the state. */
    method UpdateDeviceState(vendorId: u16, productId: u16, state: DeviceState)
      modifies this
      ensures devices == UpdateFirst(old(devices), DeviceId(vendorId, productId), state)
      ensures readers == old(readers) && events == old(events) && running == old(running)
    {
      devices := UpdateFirstMatch(devices, DeviceId(vendorId, productId), state);
    }
  }

  /** `HidDeviceManager::new`, given the error `HidApi::new` reports, if any. */
  method NewHidDeviceManager(apiError: Option<string>) returns (r: Result<HidDeviceManager, string>)
    ensures apiError.Some? ==> r == Err(apiError.value)
    ensures apiError.None? ==>
      (r.Ok? && fresh(r.value) && r.value.devices == [] && r.value.readers == map[] && r.value.events == [] && r.value.running)
  {
    if apiError.Some? {
      return Err(apiError.value);
    }
    var m := new HidDeviceManager();
    return Ok(m);
  }

  // ---- Properties ----

  /** Native Instruments is vendor 0x17cc whatever the product; the interesting vendors
      are Native Instruments, M-Audio, Focusrite and Arturia, whatever the product. */
  lemma InterestPredicates(vid: u16, pid: u16, otherPid: u16)
    ensures IsNativeInstrumentsDevice(vid, pid) <==> vid == 0x17cc
    ensures IsInterestingDevice(vid, pid) <==> vid in {0x17cc, 0x0763, 0x1235, 0x1bcf}
    ensures IsInterestingDevice(vid, pid) == IsInterestingDevice(vid, otherPid)
  {
  }

  /** The scan pushes one `Active` entry named by the product string (or "Unknown"),
      sends one `DeviceConnected` and starts one reader for each device it opens, in
      list order; nothing else changes. */
  lemma {:induction false} ScanSummary(s: Bookkeeping, infos: seq<HidDeviceInfo>)
    ensures var r := ScanSpec(s, infos);
      var o := ScanOpened(infos);
      && r.devices == s.devices + NewEntries(o)
      && r.events == s.events + ConnectedEvents(Ids(o))
      && forall id :: id in r.readers <==> id in s.readers || id in Ids(o)
    decreases |infos|
  {
    if infos != [] {
      var pre := infos[..|infos| - 1];
      var info := infos[|infos| - 1];
      ScanSummary(s, pre);
      var o := ScanOpened(pre);
      if Interesting(info) && info.opens {
        assert ScanOpened(infos) == o + [info];
        assert NewEntries(o + [info]) == NewEntries(o) + [NewEntry(info)];
        assert Ids(o + [info]) == Ids(o) + [info.id];
        assert ConnectedEvents(Ids(o) + [info.id]) == ConnectedEvents(Ids(o)) + [DeviceConnected(info.id)];
      } else {
        assert ScanOpened(infos) == o;
      }
    }
  }

  /** The first loop of a tick leaves the device list alone, announces exactly the pairs
      it opens, in list order, and starts a reader for each of them and for no other. */
  lemma {:induction false} ArriveSummary(s: Bookkeeping, known: set<DeviceId>, infos: seq<HidDeviceInfo>)
    ensures var r := ArriveSpec(s, known, infos);
      var o := NewlyOpened(known, infos);
      && r.devices == s.devices
      && r.events == s.events + ConnectedEvents(o)
      && (forall id :: id in r.readers <==> id in s.readers || id in o)
      && (forall id :: id in s.readers && id !in o ==> r.readers[id] == s.readers[id])
    decreases |infos|
  {
    if infos != [] {
      var pre := infos[..|infos| - 1];
      var info := infos[|infos| - 1];
      ArriveSummary(s, known, pre);
      var o := NewlyOpened(known, pre);
      if Interesting(info) && info.id !in known && info.opens {
        assert NewlyOpened(known, infos) == o + [info.id];
        assert ConnectedEvents(o + [info.id]) == ConnectedEvents(o) + [DeviceConnected(info.id)];
      } else {
        assert NewlyOpened(known, infos) == o;
      }
    }
  }

  /** A tick opens a pair exactly when it was not known and an interesting entry with it
      opens. */
  lemma {:induction false} NewlyOpenedSpec(known: set<DeviceId>, infos: seq<HidDeviceInfo>, id: DeviceId)
    ensures id in NewlyOpened(known, infos) <==>
      id !in known && exists i :: 0 <= i < |infos| && Interesting(infos[i]) && infos[i].opens && infos[i].id == id
    decreases |infos|
  {
    if infos != [] {
      var pre := infos[..|infos| - 1];
      NewlyOpenedSpec(known, pre, id);
      if exists i :: 0 <= i < |pre| && Interesting(pre[i]) && pre[i].opens && pre[i].id == id {
        var i :| 0 <= i < |pre| && Interesting(pre[i]) && pre[i].opens && pre[i].id == id;
        assert infos[i] == pre[i];
      }
      if exists i :: 0 <= i < |infos| && Interesting(infos[i]) && infos[i].opens && infos[i].id == id {
        var i :| 0 <= i < |infos| && Interesting(infos[i]) && infos[i].opens && infos[i].id == id;
        if i < |pre| {
          assert pre[i] == infos[i];
        }
      }
    }
  }

  /** A pair is present on a tick exactly when an interesting entry with it is listed,
      whether or not it opens. */
  lemma {:induction false} PresentSpec(infos: seq<HidDeviceInfo>, id: DeviceId)
    ensures id in Present(infos) <==> exists i :: 0 <= i < |infos| && Interesting(infos[i]) && infos[i].id == id
    decreases |infos|
  {
    if infos != [] {
      var pre := infos[..|infos| - 1];
      PresentSpec(pre, id);
      if exists i :: 0 <= i < |pre| && Interesting(pre[i]) && pre[i].id == id {
        var i :| 0 <= i < |pre| && Interesting(pre[i]) && pre[i].id == id;
        assert infos[i] == pre[i];
      }
      if exists i :: 0 <= i < |infos| && Interesting(infos[i]) && infos[i].id == id {
        var i :| 0 <= i < |infos| && Interesting(infos[i]) && infos[i].id == id;
        if i < |pre| {
          assert pre[i] == infos[i];
        }
      }
    }
  }

  /** A failed open is not retried while the device stays listed: an interesting pair
      that was listed on the previous tick is known, so the next tick neither announces
      it nor touches its reader entry, whether or not it opens now. */
  lemma FailedOpenNotRetried(s: Bookkeeping, previous: seq<HidDeviceInfo>, infos: seq<HidDeviceInfo>, info: HidDeviceInfo)
    requires info in previous && Interesting(info)
    ensures var r := ArriveSpec(s, Present(previous), infos);
      && s.events <= r.events
      && DeviceConnected(info.id) !in r.events[|s.events|..]
      && (info.id in r.readers <==> info.id in s.readers)
      && (info.id in s.readers ==> r.readers[info.id] == s.readers[info.id])
  {
    var i :| 0 <= i < |previous| && previous[i] == info;
    PresentSpec(previous, info.id);
    ArriveSummary(s, Present(previous), infos);
    NewlyOpenedSpec(Present(previous), infos, info.id);
    var r := ArriveSpec(s, Present(previous), infos);
    assert r.events[|s.events|..] == ConnectedEvents(NewlyOpened(Present(previous), infos));
  }

  /** A monitor run extended by one tick that reports its departures in `gone`. */
  lemma MonitorStep(s: Bookkeeping, ticks: seq<seq<HidDeviceInfo>>, gones: seq<seq<DeviceId>>, gone: seq<DeviceId>)
    requires |gones| < |ticks| && DepartureOrders(ticks, gones)
    requires Distinct(gone)
    requires forall id :: id in gone <==> id in KnownBefore(ticks, |gones|) && id !in Present(ticks[|gones|])
    ensures DepartureOrders(ticks, gones + [gone])
    ensures MonitorSpec(s, ticks, gones + [gone])
      == TickSpec(MonitorSpec(s, ticks, gones), KnownBefore(ticks, |gones|), ticks[|gones|], gone)
  {
    assert (gones + [gone])[..|gones|] == gones;
  }

  /** The first loop of a tick changes nothing when every interesting pair listed is
      already known. */
  lemma {:induction false} ArriveSettled(s: Bookkeeping, known: set<DeviceId>, infos: seq<HidDeviceInfo>)
    requires Present(infos) <= known
    ensures ArriveSpec(s, known, infos) == s
    decreases |infos|
  {
    if infos != [] {
      ArriveSettled(s, known, infos[..|infos| - 1]);
    }
  }

  /** On a monitor run, a tick that sees the same list as the tick before sends nothing
      and changes nothing: no pair is new and none is gone. */
  lemma SteadyTickQuiet(s: Bookkeeping, ticks: seq<seq<HidDeviceInfo>>, gones: seq<seq<DeviceId>>, i: nat)
    requires DepartureOrders(ticks, gones)
    requires 0 < i < |gones| && ticks[i] == ticks[i - 1]
    ensures gones[i] == []
    ensures TickSpec(s, KnownBefore(ticks, i), ticks[i], gones[i]) == s
  {
    assert forall id :: id !in gones[i];
    NoMembersEmpty(gones[i]);
    ArriveSettled(s, KnownBefore(ticks, i), ticks[i]);
    assert KnownBefore(ticks, i) - Present(ticks[i]) == {};
    assert s.readers - {} == s.readers;
  }

  /** A sequence with no members is empty. */
  lemma NoMembersEmpty(xs: seq<DeviceId>)
    requires forall x :: x !in xs
    ensures xs == []
  {
    if xs != [] {
      FirstIsMember(xs);
    }
  }

  /** The first element of a non-empty sequence is one of its members. */
  lemma FirstIsMember(xs: seq<DeviceId>)
    requires xs != []
    ensures xs[0] in xs
  {
  }
}
