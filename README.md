# foreign-instruments-rs, modelled in Dafny

foreign-instruments-rs finds USB controllers from Native Instruments (vendor 0x17cc),
M-Audio (0x0763), Focusrite (0x1235) and Arturia (0x1bcf). It keeps a list of the devices it
knows and whether each is active, disconnected or in error. It reads their interrupt
reports and turns those reports into MIDI messages. This project models that core in
Dafny:

- the device types and backend accessor (`ForeignInstrumentsTypes`);
- the pattern bytes of a mapping file (`MidiMapping`) and the USB-to-MIDI translation
  (`Midi`);
- the Maschine Jam report parser, its mapping table, its MIDI bridge and its event handler
  (`UsbMidiMapper`);
- the string-keyed device registry (`Registry`) and the hotplug handler that drives it
  (`Hotplug`);
- the stand-alone hotplug program with its global upsert list (`MainHotplug`);
- the two device managers, one over rusb (`RusbHid`) and one over hidapi (`HidDevices`).
  They share the reader-thread loop (`DeviceReader`), interrupt-endpoint selection
  (`UsbEndpoints`) and the first-match update of a device list (`DeviceList`).

Rust's `format!` padding (`{:04x}`, `{:4x}`, `{:4}`) is written out in `Formatting`, because
several keys and names depend on it.

Each device manager is a `class`. Its device vector, reader map and sent events are fields
that its methods reassign. Each method is proved against a function of the old state.
Those functions (`ScanSpec`, `ArriveSpec`, `PollSpec`, `Arrivals`, `ReaderEvents`,
`ParsePacket`, …) carry lemmas that state what the code promises:
- which devices get announced;
- that nothing is announced twice on a settled bus;
- that a reader ends exactly on a fatal read;
- the parser's per-byte state;
- how far each registry operation reaches.

A registry detail shows up in the model. `add_device` keys an entry by `format!("{:4x}:{:4}")`
(hexadecimal vendor, *decimal* product, space padded). Every lookup (`remove_device`,
`update_device_state`, `device_exists`, `get_device` and the hotplug poll) uses
`format!("{:04x}:{:04x}")`. The model keeps both, as the code writes them:
- `Registry.KeysNeverCoincide` proves that the key an addition writes is never the key a
  lookup for the same pair reads;
- `Registry.CrossPairCollision` shows that the two key forms can meet for different pairs.

## Model

| member | source | states |
|---|---|---|
| ForeignInstrumentsTypes.NewBackendAccessor | src/types/foreign_instruments_types.rs:46-55 | the accessor is the LibUsb variant exactly for LibUsb details and Dummy exactly for Dummy details |
| ForeignInstrumentsTypes.Discriminant | src/types/foreign_instruments_types.rs:57-59 | the discriminant is 0 or 1, and 0 exactly for LibUsb |
| ForeignInstrumentsTypes.DiscriminantIffSameVariant | src/types/foreign_instruments_types.rs:57-59 | two accessors have equal discriminants exactly when they are the same variant |
| ForeignInstrumentsTypes.NewIgnoresLibUsbDetails | src/types/foreign_instruments_types.rs:48-50 | the LibUsb accessor is the same whichever LibUsb details it was made from |
| ForeignInstrumentsTypes.ErrorStatesEqualIffMessagesEqual | src/types/foreign_instruments_types.rs:63-68 | two `Error` states are equal exactly when their messages are; an `Error` state is never `Active` or `Disconnected` |
| Formatting.Digits | src/device_registry.rs:20 | a number written in a base from 2 to 16 has at least one digit, and every character is a digit of that base |
| Formatting.DigitsRoundTrip | src/device_registry.rs:40 | reading back the digits of a number gives the number |
| Formatting.DigitsInjective | src/device_registry.rs:40 | different numbers have different digit strings |
| Formatting.PadLeftSpec | src/device_registry.rs:20 | width padding keeps the text as a suffix, fills only before it, and is as long as the text or the width, whichever is longer |
| Formatting.PadLeftInjective | src/device_registry.rs:40 | padding with a fill character the texts do not contain is injective |
| Formatting.HexWidth | src/device_registry.rs:20 | hex of a 16-bit value has at most 3 digits below 0x1000, and otherwise exactly 4, led by the top nibble |
| Formatting.DecWidth | src/device_registry.rs:20 | decimal has at most 3 digits below 1000, 4 digits led by the thousands digit up to 9999, and 5 digits above |
| Formatting.HexPad4Length | src/device_registry.rs:40 | `{:04x}` and `{:4x}` of a 16-bit value are always four characters |
| Formatting.HexPad4Leading | src/device_registry.rs:20 | `{:4x}` starts with a space below 0x1000; `{:04x}` always starts with the top nibble |
| Formatting.DecSpacePad4Shape | src/device_registry.rs:20 | `{:4}` is four characters led by a space below 1000 and by the thousands digit up to 9999; it is five characters from 10000 up |
| Formatting.DigitCharInjective | src/device_registry.rs:40 | distinct digit values give distinct characters |
| MidiMapping.ExactMatchesOnlyItsByte | src/midi_mapping.rs:46 | `Exact(e)` matches a byte exactly when it equals `e` |
| MidiMapping.WildcardMatchesEveryByte | src/midi_mapping.rs:47 | `Wildcard` matches every byte |
| MidiMapping.RangeBoundaries | src/midi_mapping.rs:48 | `Range(lo, hi)` matches exactly the bytes from `lo` to `hi` inclusive: both ends do, the byte after `hi` does not |
| MidiMapping.InvertedRangeAcceptedButEmpty | src/midi_mapping.rs:26-37 | a table with min > max still loads as a range, and that range matches no byte |
| MidiMapping.StringDeserialization | src/midi_mapping.rs:19 | the string "any" loads as `Wildcard`; every other string is an invalid-format error |
| MidiMapping.IntegerDeserialization | src/midi_mapping.rs:20-25 | an integer loads exactly when it is 0..255, as `Exact` of that byte; otherwise it is a byte-out-of-range error |
| MidiMapping.OtherValuesRejected | src/midi_mapping.rs:38 | a value that is not a string, integer or table is an invalid-format error |
| MidiMapping.TableDeserialization | src/midi_mapping.rs:26-37 | a table loads exactly when both min and max are integers in byte range, as `Range(min, max)`; a missing min is its own error |
| MidiMapping.ExtraTableKeysIgnored | src/midi_mapping.rs:26-37 | keys other than min and max do not change how a table loads |
| MidiMapping.DeserializeSerializeRoundTrip | src/midi_mapping.rs:11-40 | every pattern byte, written as its TOML value, loads back as itself |
| MidiMapping.DeserializePatternAllOrNothing | src/midi_mapping.rs:11-40 | a pattern loads exactly when every byte loads, and then holds each loaded byte in order |
| Midi.MatchesPattern | src/midi.rs:78-89 | the loop returns the specified match: the report is at least as long as the pattern and every pattern byte matches its report byte |
| Midi.TranslateUsbToMidi | src/midi.rs:56-68 | the loop returns the messages of the rules whose vendor filter, product filter and pattern all accept the report, in rule order |
| Midi.Passthrough | src/midi.rs:44-48 | passthrough returns the report unchanged as its one message |
| Midi.ShortReportNeverMatches | src/midi.rs:79-81 | a report shorter than the pattern never matches |
| Midi.EmptyPatternMatchesAll | src/midi.rs:78-89 | an empty pattern matches every report |
| Midi.TrailingBytesIgnored | src/midi.rs:83-87 | bytes after the pattern's length do not change whether it matches |
| Midi.FilterSemantics | src/midi.rs:60-61 | a missing filter accepts everything; a set filter accepts exactly its own id |
| Midi.TranslateAppend | src/midi.rs:58-67 | translating with two rule lists one after the other gives the two outputs one after the other |
| Midi.TranslateSingle | src/midi.rs:58-67 | one rule gives its message exactly when it fires, and nothing otherwise |
| Midi.TranslateLength | src/midi.rs:58-67 | there are never more messages than rules, and no rules give no messages |
| Midi.TranslateMembers | src/midi.rs:58-67 | a message is in the output exactly when some rule that fires carries it |
| Midi.LongPatternNeverFires | src/midi.rs:79-81 | a rule whose pattern is longer than the report gives nothing |
| Midi.PassthroughIgnoresIds | src/midi.rs:44-48 | passthrough output does not depend on the vendor or product id |
| Midi.ButtonRuleScenario | src/midi.rs:56-89 | a rule `[1, *, *, *, *, 0x10..0x60]` fires on a report with byte 5 = 0x10 and not on one with 0x70 |
| UsbMidiMapper.MaschineJamParser.constructor | src/usb_midi_mapper.rs:14-19 | a new parser has no button states and no last values |
| UsbMidiMapper.MaschineJamParser.ParseUsbData | src/usb_midi_mapper.rs:22-90 | the method's new state and messages are those of the packet specification from the old state |
| UsbMidiMapper.PositionMessagesLocal | src/usb_midi_mapper.rs:36-87 | what one position emits depends only on the parser's state at that position |
| UsbMidiMapper.PositionMessagesCases | src/usb_midi_mapper.rs:40-84 | a position emits at most one message; a button only at position 5, on a change of pressed state; a knob carrying the new value only on a change of value; and each is emitted whenever it fires |
| UsbMidiMapper.ScanState | src/usb_midi_mapper.rs:36-87 | after k positions, last values hold bytes 0..k-1, later ids are untouched, and the button state changes only at position 5 when it fires |
| UsbMidiMapper.ScanMessages | src/usb_midi_mapper.rs:36-87 | the messages of the loop are the per-position messages, each judged against the original state |
| UsbMidiMapper.MessagesFromMembers | src/usb_midi_mapper.rs:36-87 | a message is emitted exactly when some position below k contributes it |
| UsbMidiMapper.MessagesFromOrdered | src/usb_midi_mapper.rs:36-87 | messages come out in strictly increasing position order, all below k |
| UsbMidiMapper.InvalidPacketIgnored | src/usb_midi_mapper.rs:25-28 | a packet shorter than 17 bytes or not starting with 0x01 changes nothing and emits nothing |
| UsbMidiMapper.TrailingBytesIgnored | src/usb_midi_mapper.rs:33 | bytes after the 17th do not change the parse of a valid packet |
| UsbMidiMapper.ValidPacketState | src/usb_midi_mapper.rs:33-87 | a valid packet sets last value p to data[p+1] for p < 16, keeps other ids, and flips button 5 only when it fires |
| UsbMidiMapper.ValidPacketMessages | src/usb_midi_mapper.rs:33-87 | a valid packet emits only buttons and knobs, in increasing position order, each exactly when its change rule fires, with values taken from the packet |
| UsbMidiMapper.NeverFaderOrPad | src/usb_midi_mapper.rs:67-84 | the parser never emits a fader or pad message: the fader test is shadowed by the knob test, and pads are never produced |
| UsbMidiMapper.FirstPacketHasNoKnob | src/usb_midi_mapper.rs:67-84 | the first packet a fresh parser sees emits no knob message, since no value has been seen yet |
| UsbMidiMapper.RepeatedPacketHasNoKnob | src/usb_midi_mapper.rs:67-86 | the same packet parsed twice emits no knob message the second time |
| UsbMidiMapper.NumberedKeyInjective | src/usb_midi_mapper.rs:142-149 | `prefix + n` names differ exactly when their numbers do |
| UsbMidiMapper.TableKeysDistinct | src/usb_midi_mapper.rs:133-153 | knob and pad names are injective, no knob name is a pad name, and neither is a transport name |
| UsbMidiMapper.NewMaschineJamMidiMapping | src/usb_midi_mapper.rs:126-161 | the table maps button_5..button_8 (Stop, Play, Record, Loop) to CC 0x7B..0x7E, knob_i to CC 0x10+i for i below 8, pad_i to note 36+i at velocity 100 for i below 16, and nothing else, on channel 0 |
| UsbMidiMapper.MaschineJamMidiBridge.constructor | src/usb_midi_mapper.rs:172-182 | a new bridge holds its parser and table and has sent nothing |
| UsbMidiMapper.MaschineJamMidiBridge.ProcessUsbData | src/usb_midi_mapper.rs:185-205 | processing succeeds, advances the parser by the packet and sends exactly the packet's messages |
| UsbMidiMapper.NewMaschineJamMidiBridge | src/usb_midi_mapper.rs:172-182 | a bridge is made exactly when the MIDI port opens, with a fresh parser, nothing sent and the Maschine Jam table; otherwise the port's error is returned |
| UsbMidiMapper.MidiEnabledRusbHidEventHandler.constructor | src/usb_midi_mapper.rs:219-223 | a new handler has no bridge |
| UsbMidiMapper.MidiEnabledRusbHidEventHandler.WithMidiBridge | src/usb_midi_mapper.rs:225-229 | a fresh bridge is installed exactly when the port opens; otherwise the error is returned and the old bridge kept |
| UsbMidiMapper.MidiEnabledRusbHidEventHandler.HandleEvent | src/usb_midi_mapper.rs:231-270 | a Maschine Jam connection installs a fresh bridge and its disconnection drops it; an input report goes through the bridge, if any; other events leave the bridge alone |
| DeviceList.FirstMatch | src/rusb_hid_manager.rs:320-325 | a position found holds a device with the identifier |
| DeviceList.FirstMatchSpec | src/rusb_hid_manager.rs:320-325 | nothing is found exactly when no device has the identifier; otherwise the first such position is found |
| DeviceList.UpdateFirst | src/hid_devices.rs:251-259 | the update keeps the list's length |
| DeviceList.FindDevice | src/main.rs:25 | the front-to-back search returns the specified first match |
| DeviceList.UpdateFirstMatch | src/hid_devices.rs:251-259 | the loop returns the specified update of the first match |
| DeviceList.UpdateFirstFrame | src/hid_devices.rs:251-259 | the update sets the state of the first match only; names, ids and every other entry stay; with no match the list is unchanged |
| DeviceList.UpdateFirstUnique | src/rusb_hid_manager.rs:320-325 | in a list without duplicate identifiers the update keeps them unique and sets the state of the entry with the identifier |
| DeviceReader.RunReader | src/rusb_hid_manager.rs:202-235 | the reader loop sends exactly the specified events, after at most stopAfter reads |
| DeviceReader.HandleRead | src/rusb_hid_manager.rs:210-233 | one read ends the reader exactly on a fatal error, with a disconnect event; otherwise it reports non-empty data and nothing for an empty read or a tolerated timeout |
| DeviceReader.ReaderEventsShape | src/hid_devices.rs:115-134 | a reader sends at most one event per read, all for its own device, and only reports of 1..64 bytes or a disconnect |
| DeviceReader.DisconnectOnlyLast | src/rusb_hid_manager.rs:224-233 | a disconnect event can only be the last event a reader sends |
| DeviceReader.DisconnectIffFatalRead | src/hid_devices.rs:128-132 | a reader's events end with a disconnect exactly when one of the reads before the stop was fatal |
| DeviceReader.LaterStopExtends | src/rusb_hid_manager.rs:202-206 | stopping later only appends events: the earlier events are a prefix |
| DeviceReader.TimeoutHandling | src/rusb_hid_manager.rs:224-227 | the rusb reader skips a timeout and carries on; the hidapi reader takes any read error as a disconnect |
| DeviceReader.ConnectedEvents | src/rusb_hid_manager.rs:119-122 | one `DeviceConnected` per pair, in order |
| DeviceReader.DisconnectedEvents | src/hid_devices.rs:213-225 | one `DeviceDisconnected` per pair, in order |
| DeviceReader.DisconnectedEventsSpec | src/hid_devices.rs:213-225 | distinct pairs give distinct disconnect events, and the events are exactly the disconnects of those pairs |
| Registry.OfKind | src/device_registry.rs:101-103 | the filter keeps only devices of the given state variant, drawn from the input |
| Registry.KindsPartition | src/device_registry.rs:96-105 | every device is in exactly one of the three filters, so their lengths add up to the number of devices |
| Registry.DeviceRegistry.constructor | src/device_registry.rs:13-17 | a new registry is empty |
| Registry.DeviceRegistry.AddDevice | src/device_registry.rs:19-37 | the map gains the space-padded key with an `Active` entry, unless that key is already present |
| Registry.DeviceRegistry.RemoveDevice | src/device_registry.rs:39-48 | the zero-padded key is removed |
| Registry.DeviceRegistry.UpdateDeviceState | src/device_registry.rs:50-63 | the entry under the zero-padded key, if any, gets the new state |
| Registry.DeviceRegistry.GetAllDevices | src/device_registry.rs:74-77 | every entry is returned once, in some order of the keys |
| Registry.DeviceRegistry.GetActiveDevices | src/device_registry.rs:65-72 | exactly the active entries are returned, once each |
| Registry.DeviceRegistry.StatusCountsOf | src/device_registry.rs:96-105 | the total is the number of entries, each of the active, disconnected and error counts is the number of map entries in that state, and the three add up to the total |
| Registry.CollectValues | src/device_registry.rs:65-77 | the map walk visits every key once, keeping the wanted entries with their keys |
| Registry.PutIfAbsentFacts | src/device_registry.rs:31-35 | insert-if-absent keeps every existing entry, adds the key, and is idempotent |
| Registry.RemoveFacts | src/device_registry.rs:40-47 | removal drops only the key |
| Registry.SetStateFacts | src/device_registry.rs:51-60 | a state update keeps the keys, names and ids and changes only the entry under the key |
| Registry.KeysNeverCoincide | src/device_registry.rs:20-40 | the key an addition writes is never the key a lookup for the same pair reads |
| Registry.LookupKeyUnspaced | src/device_registry.rs:40 | lookup keys contain no space |
| Registry.AddKeySpaced | src/device_registry.rs:20 | an addition key contains a space whenever the vendor is below 0x1000 or the product below 1000 |
| Registry.CrossPairCollision | src/device_registry.rs:20-40 | adding 17cc:04d2 (decimal 1234) writes the key that a lookup of 17cc:1234 reads |
| Registry.AddKeyInjective | src/device_registry.rs:20 | different pairs give different addition keys |
| Registry.AddedProperties | src/device_registry.rs:19-37 | an addition adds the named `Active` entry if its key is new, changes nothing otherwise, keeps every entry and is idempotent |
| Registry.AddedInvisibleToSamePair | src/device_registry.rs:19-63 | after an addition, a lookup, removal or update of the same pair misses the new entry |
| Registry.RemovedProperties | src/device_registry.rs:39-48 | a removal drops the lookup key only, does nothing when it is absent, and is idempotent |
| Registry.UpdatedProperties | src/device_registry.rs:50-63 | an update keeps keys, names and ids, sets only the looked-up entry, and does nothing when it is absent |
| Registry.AddedWellKeyed | src/device_registry.rs:19-37 | additions keep every entry under the key made from its own ids |
| Registry.RemovedWellKeyed | src/device_registry.rs:39-48 | removals keep every entry under the key made from its own ids |
| Registry.UpdatedWellKeyed | src/device_registry.rs:50-63 | updates keep every entry under the key made from its own ids |
| Registry.LookupsMissOwnEntry | src/device_registry.rs:50-63 | in a well-keyed registry, a lookup never finds the entry of its own pair, and an update leaves it as it was |
| Registry.ExistsIffGetDevice | src/device_registry.rs:79-89 | a device exists exactly when `get_device` returns it, and it returns the entry under the lookup key |
| Registry.FilterCountsMap | src/device_registry.rs:96-105 | filtering a walk of the map by a state variant keeps as many devices as the map has entries in that state |
| Hotplug.IsInterestingDevice | src/hotplug_handler.rs:121-126 | interesting vendors are exactly 0x17cc, 0x0763, 0x1235 and 0x1bcf |
| Hotplug.FirstReadable | src/hotplug_handler.rs:128-137 | a position found holds a readable device with the pair |
| Hotplug.FindDeviceByVidPid | src/hotplug_handler.rs:128-137 | the search returns the specified first readable device with the pair |
| Hotplug.FindByIdsSpec | src/hotplug_handler.rs:128-137 | nothing is found exactly when listing fails or no readable device has the pair; otherwise the first one is found |
| Hotplug.FirstReadableSpec | src/hotplug_handler.rs:128-137 | nothing is found exactly when no readable device has the pair; nothing earlier has it |
| Hotplug.Values | src/hotplug_handler.rs:89 | the snapshot of the registry holds the entry of each key, in order |
| Hotplug.ArrivalDeviceArrived | src/hotplug_handler.rs:150-161 | an arrival with a readable descriptor adds the device through the registry |
| Hotplug.DepartureDeviceLeft | src/hotplug_handler.rs:178-189 | a departure with a readable descriptor calls `remove_device` for the pair, which misses the entry the arrival added |
| Hotplug.HotplugHandler.constructor | src/hotplug_handler.rs:14-21 | a new handler shares the registry and has no callbacks |
| Hotplug.HotplugHandler.RegisterHotplugCallbacks | src/hotplug_handler.rs:23-57 | without hotplug support nothing is registered; the first registration error is returned; otherwise one arrival and one departure callback for vendor 0x17cc are registered |
| Hotplug.HotplugHandler.ScanInitialDevices | src/hotplug_handler.rs:59-85 | a listing error is returned unchanged; otherwise every device is visited in order as specified |
| Hotplug.HotplugHandler.PollDevices | src/hotplug_handler.rs:87-119 | the poll visits a snapshot of every entry once and applies the specified step to each |
| Hotplug.HotplugHandler.PollDevice | src/hotplug_handler.rs:93-115 | one entry is marked active if found and disconnected if not, when its state disagrees |
| Hotplug.HotplugHandler.Deliver | src/hotplug_handler.rs:42-49 | a hotplug event reaches the registered callbacks whose vendor filter matches |
| Hotplug.NewHotplugHandler | src/hotplug_handler.rs:14-21 | the context error is returned, or a fresh handler with no callbacks |
| Hotplug.ScanKeeps | src/hotplug_handler.rs:62-81 | the scan keeps every existing entry |
| Hotplug.ScanCovers | src/hotplug_handler.rs:62-81 | after the scan every wanted device has an entry under its addition key |
| Hotplug.ScanOrigin | src/hotplug_handler.rs:62-81 | every new entry comes from a wanted device of the listing, with the `Active` entry for its ids |
| Hotplug.ScanNewEntries | src/hotplug_handler.rs:62-81 | each new key is the addition key of some wanted device, with that device's entry |
| Hotplug.ScanSettled | src/hotplug_handler.rs:62-81 | a registry that already covers the listing is left unchanged |
| Hotplug.ScanIdempotent | src/hotplug_handler.rs:59-85 | scanning the same listing twice is the same as once |
| Hotplug.ScanWellKeyed | src/hotplug_handler.rs:62-81 | the scan keeps every entry under the key made from its own ids |
| Hotplug.PollActionAgrees | src/hotplug_handler.rs:97-115 | the poll rewrites a state exactly when it disagrees with presence, to `Active` if present and `Disconnected` if not |
| Hotplug.PollStepShape | src/hotplug_handler.rs:92-116 | a poll step keeps keys, names and ids |
| Hotplug.PollKeepsShape | src/hotplug_handler.rs:87-119 | the whole poll keeps keys, names and ids |
| Hotplug.PollUntouched | src/hotplug_handler.rs:93 | an entry whose key no snapshot entry looks up is left as it was |
| Hotplug.PollRepairsNothing | src/hotplug_handler.rs:93 | for a registry filled by additions of short ids, every poll lookup misses and the poll changes nothing |
| Hotplug.DispatchFiltered | src/hotplug_handler.rs:42-49 | events from vendors other than 0x17cc reach no callback and change nothing |
| Hotplug.DispatchRegistered | src/hotplug_handler.rs:150-189 | with both callbacks registered, a readable 0x17cc device is added on arrival, and on departure `remove_device` is called for its pair, which misses the entry the arrival added |
| MainHotplug.GlobalRegistry.constructor | src/main.rs:16 | the global list starts empty |
| MainHotplug.GlobalRegistry.UpdateDeviceState | src/main.rs:22-39 | the state of the first entry with the pair is set, or a named entry is appended |
| MainHotplug.GlobalRegistry.HandleDeviceError | src/main.rs:41-44 | the pair's state becomes `Error(msg)` through the upsert |
| MainHotplug.GlobalRegistry.DeviceArrived | src/main.rs:73-105 | an arrival upserts the initialisation outcome of an interesting, readable device |
| MainHotplug.GlobalRegistry.DeviceLeft | src/main.rs:107-126 | a departure upserts `Disconnected` for an interesting, readable device |
| MainHotplug.InterestingVendors | src/main.rs:13-20 | interesting vendors are exactly 0x17cc, 0x0763, 0x1235 and 0x1bcf |
| MainHotplug.UpsertKnown | src/main.rs:25-28 | on a known pair only the first match's state changes |
| MainHotplug.UpsertUnknown | src/main.rs:29-38 | on an unknown pair exactly one entry named `Device vvvv:pppp` is appended |
| MainHotplug.UpsertUnique | src/main.rs:22-39 | the upsert keeps pairs unique, and afterwards the pair is present with its new state |
| MainHotplug.HandleErrorSetsError | src/main.rs:41-44 | afterwards the pair is present and in state `Error(msg)` |
| MainHotplug.InitializeOutcomes | src/main.rs:129-149 | uninteresting vendors are refused; an interesting device fails only on the random failure of 17cc:1500 |
| MainHotplug.ArrivalOutcomes | src/main.rs:73-105 | an arrival changes nothing for an unreadable or uninteresting device, and otherwise upserts `Active` or `Error("Initialization failed: " + e)` |
| MainHotplug.LeftOutcomes | src/main.rs:107-126 | a departure leaves an interesting device present and `Disconnected`, and changes nothing otherwise |
| MainHotplug.CallbacksKeepUnique | src/main.rs:73-126 | arrivals and departures never create two entries for one pair |
| UsbEndpoints.DirectionOf | src/rusb_hid_manager.rs:69 | an endpoint is IN exactly when bit 7 of its address is set |
| UsbEndpoints.TransferTypeOf | src/rusb_hid_manager.rs:69 | an endpoint is interrupt exactly when the low two bits of its attributes are 3 |
| UsbEndpoints.EndpointsOf | src/rusb_hid_manager.rs:65-73 | each endpoint becomes one candidate tagged with its interface number, in order |
| UsbEndpoints.FindInterruptEndpointLoop | src/rusb_hid_manager.rs:62-78 | the nested loops return the specified first interrupt IN endpoint |
| UsbEndpoints.SearchAlts | src/rusb_hid_manager.rs:66-74 | the loop over alternate settings returns the first selected candidate among them |
| UsbEndpoints.SearchEndpoints | src/rusb_hid_manager.rs:67-73 | the loop over endpoints returns the first selected candidate among them |
| UsbEndpoints.FirstSelectedAppend | src/rusb_hid_manager.rs:64-75 | searching a concatenation finds the first part's answer if it has one, and the second's otherwise |
| UsbEndpoints.FirstSelectedSpec | src/rusb_hid_manager.rs:64-75 | nothing is found exactly when no candidate is selected; otherwise the first selected one is found |
| UsbEndpoints.FindInterruptEndpointSpec | src/rusb_hid_manager.rs:62-78 | no endpoint is found exactly when there is no configuration or none of its endpoints is interrupt IN; what is found is the first such, as (interface, address) |
| UsbEndpoints.FindInterruptEndpointExample | src/rusb_hid_manager.rs:62-78 | of an OUT interrupt, an IN bulk and an IN interrupt endpoint, the IN interrupt one (0x81) is chosen |
| RusbHid.NewEntries | src/rusb_hid_manager.rs:105-110 | one `Active` entry named `Device vvvv:pppp` per opened pair, in order |
| RusbHid.RusbHidManager.constructor | src/rusb_hid_manager.rs:37-46 | a new manager has no devices, readers or events, and is running |
| RusbHid.RusbHidManager.StartReaderThread | src/rusb_hid_manager.rs:189-250 | the pair's reader is recorded with its interface and endpoint; nothing else changes |
| RusbHid.RusbHidManager.StopReaderThread | src/rusb_hid_manager.rs:252-261 | the pair's reader is dropped; nothing else changes |
| RusbHid.RusbHidManager.OpenAndReadDevice | src/rusb_hid_manager.rs:140-187 | the open makes the specified calls and succeeds exactly when every step does, starting a reader; a failure returns its message and starts none |
| RusbHid.RusbHidManager.ScanDevice | src/rusb_hid_manager.rs:90-133 | one scan iteration as specified |
| RusbHid.RusbHidManager.ScanInitialDevices | src/rusb_hid_manager.rs:81-138 | a listing error is returned with nothing changed; otherwise every device is visited in order as specified |
| RusbHid.RusbHidManager.MonitorTick | src/rusb_hid_manager.rs:275-307 | a tick announces the wanted devices that are new, then reports once each the known pairs no longer present; a listing error sends nothing |
| RusbHid.RusbHidManager.ReportArrivals | src/rusb_hid_manager.rs:277-293 | the first loop records every present pair and announces the unknown ones |
| RusbHid.RusbHidManager.ReportDepartures | src/rusb_hid_manager.rs:295-305 | the second loop reports every departed pair once |
| RusbHid.RusbHidManager.MonitorRound | src/rusb_hid_manager.rs:271-308 | one loop iteration of the monitor extends the fold by its tick, or fails with a listing error and sends nothing |
| RusbHid.RusbHidManager.Monitor | src/rusb_hid_manager.rs:264-310 | the events sent are the fold over the ticks run of each tick's arrivals and then departures, each departed pair once; the run stops at the first listing error; devices and readers stay; the monitor ends knowing the pairs of the last tick |
| RusbHid.RusbHidManager.StopMonitoring | src/rusb_hid_manager.rs:312-314 | monitoring stops and nothing else changes |
| RusbHid.RusbHidManager.GetDevices | src/rusb_hid_manager.rs:316-318 | the device list is returned |
| RusbHid.RusbHidManager.UpdateDeviceState | src/rusb_hid_manager.rs:320-325 | the first entry with the pair gets the state; readers and events stay |
| RusbHid.NewRusbHidManager | src/rusb_hid_manager.rs:37-46 | a context error is returned, or a fresh empty running manager |
| RusbHid.InterestPredicates | src/rusb_hid_manager.rs:49-59 | Native Instruments is vendor 0x17cc for any product; the interesting vendors are the four listed, whatever the product |
| RusbHid.OpenOrder | src/rusb_hid_manager.rs:140-187 | an open's calls are a prefix of the full sequence; it is the full sequence exactly on success; a reader starts exactly on success; detach happens only when a kernel driver is reported |
| RusbHid.OpenErrors | src/rusb_hid_manager.rs:140-187 | which failure an open reports, step by step, and the not-found and no-endpoint messages |
| RusbHid.ScanSummary | src/rusb_hid_manager.rs:89-134 | the scan pushes one `Active` entry, sends one connect and starts one reader per opened device, in order |
| RusbHid.ScanPushesDuplicates | src/rusb_hid_manager.rs:89-134 | a device listed twice is pushed and announced twice |
| RusbHid.PresentSpec | src/rusb_hid_manager.rs:279-293 | a pair is present exactly when a wanted device of the listing has it |
| RusbHid.ArrivalsSpec | src/rusb_hid_manager.rs:279-293 | a tick announces only connections, and announces a pair exactly when it is present and unknown |
| RusbHid.TickQuietWhenSettled | src/rusb_hid_manager.rs:275-307 | with every present pair already known, a tick announces nothing |
| RusbHid.MonitorStep | src/rusb_hid_manager.rs:271-308 | one more enumerating tick extends the departure orders and appends its arrivals and departures to the fold |
| RusbHid.SteadyTickQuiet | src/rusb_hid_manager.rs:271-308 | in a monitor run, a tick whose enumeration repeats the previous one has no departures and sends nothing |
| HidDevices.NewEntries | src/hid_devices.rs:77-82 | one `Active` entry per opened device, named by its product string, in order |
| HidDevices.Ids | src/hid_devices.rs:91-94 | the pairs of the opened devices, in order |
| HidDevices.HidDeviceManager.constructor | src/hid_devices.rs:34-43 | a new manager has no devices, readers or events, and is running |
| HidDevices.HidDeviceManager.StartReaderThread | src/hid_devices.rs:108-139 | the pair's reader is recorded; nothing else changes |
| HidDevices.HidDeviceManager.StopReaderThread | src/hid_devices.rs:141-150 | the pair's reader is dropped; nothing else changes |
| HidDevices.HidDeviceManager.ScanInitialDevices | src/hid_devices.rs:63-106 | every listed device is visited in order as specified, and the scan succeeds |
| HidDevices.HidDeviceManager.MonitorTick | src/hid_devices.rs:162-227 | a tick opens and announces the newly listed interesting devices, then reports once each the known pairs no longer present and drops their readers; the device list is untouched |
| HidDevices.HidDeviceManager.Monitor | src/hid_devices.rs:153-230 | events and readers are the fold over the ticks run of each tick's openings, then its departures once each with their readers dropped; the device list never changes; the monitor ends knowing the pairs of the last tick |
| HidDevices.HidDeviceManager.StopMonitoring | src/hid_devices.rs:233-243 | monitoring stops and every reader is dropped |
| HidDevices.HidDeviceManager.GetDevices | src/hid_devices.rs:246-248 | the device list is returned |
| HidDevices.HidDeviceManager.UpdateDeviceState | src/hid_devices.rs:251-259 | the first entry with the pair gets the state; readers and events stay |
| HidDevices.NewHidDeviceManager | src/hid_devices.rs:34-43 | an API error is returned, or a fresh empty running manager |
| HidDevices.InterestPredicates | src/hid_devices.rs:50-60 | Native Instruments is vendor 0x17cc for any product; interesting vendors are the four listed, whatever the product |
| HidDevices.ScanSummary | src/hid_devices.rs:66-102 | the scan pushes one `Active` entry per opened interesting device, named by its product string or "Unknown", sends one connect each and starts its reader |
| HidDevices.ArriveSummary | src/hid_devices.rs:166-211 | the first loop of a tick leaves the device list alone, announces exactly the pairs it opens, and starts their readers |
| HidDevices.NewlyOpenedSpec | src/hid_devices.rs:166-211 | a tick opens a pair exactly when it is not known and an interesting entry with it opens |
| HidDevices.PresentSpec | src/hid_devices.rs:166-211 | a pair is present exactly when an interesting entry with it is listed, whether or not it opens |
| HidDevices.MonitorStep | src/hid_devices.rs:157-228 | one more tick extends the departure orders and applies its tick step to the fold |
| HidDevices.ArriveSettled | src/hid_devices.rs:166-211 | with every listed interesting pair already known, the first loop of a tick changes nothing |
| HidDevices.SteadyTickQuiet | src/hid_devices.rs:157-228 | in a monitor run, a tick that sees the same list as the previous one has no departures and leaves the bookkeeping as it was |
| HidDevices.FailedOpenNotRetried | src/hid_devices.rs:166-226 | an interesting device still listed on the next tick is not opened or announced again, even if its last open failed |

## Left out

- I/O, threads, mutexes and channels. The event channel is a `seq` of sent events that the methods append to. Stop flags and `join` are not modelled, and each reader loop runs on its own in `DeviceReader.ReaderEvents`, with the stop flag given as the number of reads before it is set.
- Logging, `print_status` printing and `print_device_registry`. The counts behind `print_status` are modelled as `StatusCountsOf`.
- The sleep between monitor ticks. A run of the monitor is given as the sequence of device listings its ticks see.
- The rusb, hidapi and libusb foreign calls: listing devices, reading descriptors, opening, claiming and reading. Their answers are inputs: an enumeration result, a per-device `Handle` whose fields are the answers, `opens` flags, and read outcomes.
- Hotplug.HotplugHandler.PollDevices: one bus listing serves the whole poll, where the source lists the bus again for every registry entry (src/hotplug_handler.rs:96, 129).
- RusbHid.RusbHidManager.Monitor: a failed device listing in a monitor tick makes `unwrap` panic and ends the monitor thread. The model ends the monitor with no result and does not model the panic itself.
- The random number in `initialize_device`. It is a boolean input saying whether the random failure happens.
- The MIDI output port (`midir`) and `translate_and_send`. Opening a port is an input `Result`, and the bridge records the messages it would send in `sent`.
- `simulate_device_input` (src/main.rs:46-66) sends six fixed test messages through `translate_and_send`, with a 100 ms sleep after each, and logs a failed send. Neither `translate_and_send` nor `get_default_mapping` is declared in `midi.rs`. The MIDI output is not modelled, and the function does not touch the device list.
- `BasicRusbHidEventHandler`, `process_rusb_hid_events`, `BasicHidEventHandler` and `process_hid_events`, which only log each event.
- The `event_sender` accessor, which returns a clone of the channel.
- Loading mappings from a file (`from_config_file`). Only the deserialisation of the loaded TOML values is modelled, over a small TOML value type.
- Rust `HashMap` iteration order, which is unspecified. It is a ghost `order` sequence that the contracts quantify over.
- The entry points (`event_driven_main*.rs`, `main_event_driven*.rs`, `maschinetest.rs`, `simple_maschine_test.rs`), the dummy traits of `lib.rs`, and the declaration-only backend and device files. They are not part of the core.
- `usb_midi_mapper.rs` and `main.rs` import `UsbMessage` from `crate::midi`, and `usb_midi_mapper.rs:133-153` names `crate::midi::MidiControlMapping`, but `midi.rs` declares neither. Both are reconstructed from their uses (`usb_midi_mapper.rs:48-81` and `133-153`, `main.rs:52-57`).
- MidiMapping.InvertedRangeAcceptedButEmpty: a range with min greater than max is accepted when loaded and then matches nothing. The model follows the code here, although an error for such a range would be a reasonable reading of the intended design.
- Registry: the addition key `{:4x}:{:4}` and the lookup key `{:04x}:{:04x}` are kept as written. `Registry.KeysNeverCoincide` and `Registry.CrossPairCollision` show the consequences. No corrected registry is modelled, because the rest of the program uses the registry as written.
