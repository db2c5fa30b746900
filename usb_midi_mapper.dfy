/** The Maschine Jam bridge: a packet parser that turns 17-byte reports into button and
    knob messages by remembering the last report, the fixed control table those messages
    are translated with, and the event handler that creates and drops the bridge as the
    controller comes and goes. Translation into MIDI bytes and the virtual MIDI port are not
    part of this model: the bridge records the messages it hands on. */
module UsbMidiMapper {
  import opened Common
  import opened Formatting
  import opened DeviceReader

  /** The controller messages, from the constructors the parser and the simulated input
      use. */
  datatype UsbMessage =
    | Button(buttonId: byte, pressed: bool)
    | Knob(knobId: byte, value: byte)
    | Fader(faderId: byte, value: byte)
    | Pad(padId: byte, velocity: byte, pressed: bool)

  function MessageId(m: UsbMessage): byte
  {
    match m
    case Button(id, _) => id
    case Knob(id, _) => id
    case Fader(id, _) => id
    case Pad(id, _, _) => id
  }

  // ---- Byte classification ----

  /** The values observed at the button position. */
  predicate IsButtonValue(value: byte)
  {
    value == 0x00 || value == 0x10 || value == 0x20 || value == 0x30
    || value == 0x40 || value == 0x50 || value == 0x60
  }

  /** `is_button_byte`: only position 5, and only with one of the observed values. */
  predicate IsButtonByte(position: nat, value: byte)
  {
    position == 5 && IsButtonValue(value)
  }

  /** `is_knob_byte`: positions 7 to 15, whatever the value. */
  predicate IsKnobByte(position: nat, value: byte)
  {
    7 <= position <= 15
  }

  /** `is_fader_byte`: the same positions as a knob. */
  predicate IsFaderByte(position: nat, value: byte)
  {
    7 <= position <= 15
  }

  // ---- The parser as a state machine ----

  /** The parser's two maps: the last pressed state of each button position and the last
      value seen at each position. */
  datatype ParserState = ParserState(buttonStates: map<byte, bool>, lastValues: map<byte, byte>)

  const EmptyParserState := ParserState(map[], map[])

  /** A button that was never seen counts as released. */
  function WasPressed(s: ParserState, id: byte): bool
  {
    if id in s.buttonStates then s.buttonStates[id] else false
  }

  /** The button at position 5 reports an edge with value `v`. */
  predicate ButtonFires(s: ParserState, v: byte)
  {
    IsButtonValue(v) && (v != 0) != WasPressed(s, 5)
  }

  /** Position `p` reports a knob turn with value `v`. */
  predicate KnobFires(s: ParserState, p: byte, v: byte)
  {
    7 <= p <= 15 && p in s.lastValues && v != s.lastValues[p] && v != 0
  }

  /** The messages one position contributes, judged against state `s`: a button edge, then
      a knob (or, in the unreachable else-branch, a fader) for a changed non-zero value. */
  function PositionMessages(s: ParserState, p: nat, v: byte): seq<UsbMessage>
    requires p < 16
  {
    var id: byte := p;
    (if IsButtonByte(p, v) && (v != 0) != WasPressed(s, id) then [Button(id, v != 0)] else [])
    + (if id in s.lastValues && v != s.lastValues[id] && v != 0 then
         (if IsKnobByte(p, v) then [Knob(id, v)] else if IsFaderByte(p, v) then [Fader(id, v)] else [])
       else [])
  }

  /** The state after position `p` with value `v`: a button edge is recorded, and the
      value always is. */
  function StepState(s: ParserState, p: nat, v: byte): ParserState
    requires p < 16
  {
    var id: byte := p;
    ParserState(
      if IsButtonByte(p, v) && (v != 0) != WasPressed(s, id) then s.buttonStates[id := v != 0] else s.buttonStates,
      s.lastValues[id := v])
  }

  datatype ParseResult = ParseResult(state: ParserState, messages: seq<UsbMessage>)

  /** The first `k` positions of `bytes` processed in order from state `s`. */
  function ScanPositions(s: ParserState, bytes: seq<byte>, k: nat): ParseResult
    requires k <= |bytes| <= 16
  {
    if k == 0 then ParseResult(s, [])
    else
      var r := ScanPositions(s, bytes, k - 1);
      ParseResult(StepState(r.state, k - 1, bytes[k - 1]), r.messages + PositionMessages(r.state, k - 1, bytes[k - 1]))
  }

  /** Byte `p` of the 16 the parser examines. */
  function PacketByte(data: seq<byte>, p: nat): byte
    requires |data| >= 17 && p < 16
  {
    data[p + 1]
  }

  /** A report the parser accepts: at least 17 bytes, led by report id 0x01. */
  predicate IsValidPacket(data: seq<byte>)
  {
    |data| >= 17 && data[0] == 0x01
  }

  /** `parse_usb_data` from state `s`: an invalid report yields nothing and changes nothing;
      a valid one is scanned over its bytes 1 to 16. */
  function ParsePacket(s: ParserState, data: seq<byte>): ParseResult
  {
    if !IsValidPacket(data) then ParseResult(s, []) else ScanPositions(s, data[1..17], 16)
  }

  /** `MaschineJamParser`. */
  class MaschineJamParser {
    var buttonStates: map<byte, bool>
    var lastValues: map<byte, byte>

    function State(): ParserState
      reads this
    {
      ParserState(buttonStates, lastValues)
    }

    /** `MaschineJamParser::new`: both maps empty. */
    constructor ()
      ensures State() == EmptyParserState
    {
      buttonStates := map[];
      lastValues := map[];
    }

    /** `MaschineJamParser::parse_usb_data`. */
    method ParseUsbData(data: seq<byte>) returns (messages: seq<UsbMessage>)
      modifies this
      ensures ParseResult(State(), messages) == ParsePacket(old(State()), data)
    {
      messages := [];
      if |data| < 17 || data[0] != 0x01 {
        return;
      }
      ghost var s0 := State();
      var dataBytes := data[1..17];
      for position := 0 to 16
        invariant ParseResult(State(), messages) == ScanPositions(s0, dataBytes, position)
      {
        var value := dataBytes[position];
        var buttonId: byte := position;
        if IsButtonByte(position, value) {
          var wasPressed := if buttonId in buttonStates then buttonStates[buttonId] else false;
          var isPressed := value != 0;
          if isPressed != wasPressed {
            buttonStates := buttonStates[buttonId := isPressed];
            messages := messages + [Button(buttonId, isPressed)];
          }
        }
        if buttonId in lastValues {
          var lastValue := lastValues[buttonId];
          if value != lastValue && value != 0 {
            if IsKnobByte(position, value) {
              messages := messages + [Knob(buttonId, value)];
            } else if IsFaderByte(position, value) {
              messages := messages + [Fader(buttonId, value)];
            }
          }
        }
        lastValues := lastValues[buttonId := value];
      }
    }
  }

  // ---- Properties of the parser ----

  /** Two states agree about position `id`. */
  predicate AgreesAt(s: ParserState, t: ParserState, id: byte)
  {
    && (id in s.buttonStates <==> id in t.buttonStates)
    && (id in s.buttonStates ==> s.buttonStates[id] == t.buttonStates[id])
    && (id in s.lastValues <==> id in t.lastValues)
    && (id in s.lastValues ==> s.lastValues[id] == t.lastValues[id])
  }

  /** What a position contributes depends only on what the state says about that position. */
  lemma PositionMessagesLocal(s: ParserState, t: ParserState, p: nat, v: byte)
    requires p < 16 && AgreesAt(s, t, p)
    ensures PositionMessages(s, p, v) == PositionMessages(t, p, v)
  {
  }

  /** One position contributes at most one message, always carrying the position as its id:
      a button release or press exactly on an edge at position 5, a knob exactly on a
      changed non-zero value at positions 7 to 15, never a fader or a pad. */
  lemma PositionMessagesCases(s: ParserState, p: nat, v: byte)
    requires p < 16
    ensures var ms := PositionMessages(s, p, v);
      && |ms| <= 1
      && (forall m :: m in ms ==> MessageId(m) == p && (m.Button? || m.Knob?))
      && (forall m :: m in ms && m.Button? ==> p == 5 && m.pressed == (v != 0) && ButtonFires(s, v))
      && (forall m :: m in ms && m.Knob? ==> m.value == v && KnobFires(s, p, v))
      && (p == 5 && ButtonFires(s, v) ==> Button(5, v != 0) in ms)
      && (KnobFires(s, p, v) ==> Knob(p, v) in ms)
  {
  }

  /** The messages of the first `k` positions, each judged against the initial state. */
  function MessagesFrom(s: ParserState, bytes: seq<byte>, k: nat): seq<UsbMessage>
    requires k <= |bytes| <= 16
  {
    if k == 0 then [] else MessagesFrom(s, bytes, k - 1) + PositionMessages(s, k - 1, bytes[k - 1])
  }

  /** After `k` positions: positions from `k` on are as in the initial state, each earlier
      position holds its byte, and the button map changed only by the edge at position 5. */
  lemma {:induction false} ScanState(s: ParserState, bytes: seq<byte>, k: nat)
    requires k <= |bytes| <= 16
    ensures var st := ScanPositions(s, bytes, k).state;
      && (forall id: byte :: id >= k ==> AgreesAt(st, s, id))
      && (forall id: byte :: id < k ==> id in st.lastValues && st.lastValues[id] == bytes[id])
      && st.buttonStates == if k > 5 && ButtonFires(s, bytes[5]) then s.buttonStates[5 := bytes[5] != 0] else s.buttonStates
  {
    if k > 0 {
      ScanState(s, bytes, k - 1);
      var r := ScanPositions(s, bytes, k - 1).state;
      var st := StepState(r, k - 1, bytes[k - 1]);
      assert AgreesAt(r, s, (k - 1) as byte);
      forall id: byte | id >= k
        ensures AgreesAt(st, s, id)
      {
        assert AgreesAt(r, s, id);
      }
    }
  }

  /** Positions do not see each other's updates: scanning emits what each position would
      emit from the initial state. */
  lemma {:induction false} ScanMessages(s: ParserState, bytes: seq<byte>, k: nat)
    requires k <= |bytes| <= 16
    ensures ScanPositions(s, bytes, k).messages == MessagesFrom(s, bytes, k)
  {
    if k > 0 {
      ScanMessages(s, bytes, k - 1);
      ScanState(s, bytes, k - 1);
      var r := ScanPositions(s, bytes, k - 1).state;
      assert AgreesAt(r, s, (k - 1) as byte);
      PositionMessagesLocal(r, s, k - 1, bytes[k - 1]);
    }
  }

  /** Some position below `k` contributes `m`. */
  predicate ContributedBelow(s: ParserState, bytes: seq<byte>, k: nat, m: UsbMessage)
    requires k <= |bytes| <= 16
  {
    exists p: nat :: p < k && m in PositionMessages(s, p, bytes[p])
  }

  /** A message of the first `k` positions comes from one of them. */
  lemma {:induction false} MessagesFromMembers(s: ParserState, bytes: seq<byte>, k: nat, m: UsbMessage)
    requires k <= |bytes| <= 16
    ensures m in MessagesFrom(s, bytes, k) <==> ContributedBelow(s, bytes, k, m)
  {
    if k > 0 {
      MessagesFromMembers(s, bytes, k - 1, m);
      var prev := MessagesFrom(s, bytes, k - 1);
      var last := PositionMessages(s, k - 1, bytes[k - 1]);
      assert MessagesFrom(s, bytes, k) == prev + last;
      if m in prev {
        var p: nat :| p < k - 1 && m in PositionMessages(s, p, bytes[p]);
        assert p < k && m in PositionMessages(s, p, bytes[p]);
      }
      if m in last {
        assert k - 1 < k && m in PositionMessages(s, k - 1, bytes[k - 1]);
      }
      if ContributedBelow(s, bytes, k, m) {
        var p: nat :| p < k && m in PositionMessages(s, p, bytes[p]);
        if p < k - 1 {
          assert ContributedBelow(s, bytes, k - 1, m);
        }
      }
    }
  }

  /** Ids strictly increase along the messages of the first `k` positions, and stay below
      `k`. */
  lemma {:induction false} MessagesFromOrdered(s: ParserState, bytes: seq<byte>, k: nat)
    requires k <= |bytes| <= 16
    ensures var ms := MessagesFrom(s, bytes, k);
      && (forall i, j :: 0 <= i < j < |ms| ==> MessageId(ms[i]) < MessageId(ms[j]))
      && (forall m :: m in ms ==> MessageId(m) < k)
  {
    if k > 0 {
      MessagesFromOrdered(s, bytes, k - 1);
      PositionMessagesCases(s, k - 1, bytes[k - 1]);
      var prev := MessagesFrom(s, bytes, k - 1);
      var last := PositionMessages(s, k - 1, bytes[k - 1]);
      assert MessagesFrom(s, bytes, k) == prev + last;
      forall i, j | 0 <= i < j < |prev + last|
        ensures MessageId((prev + last)[i]) < MessageId((prev + last)[j])
      {
        if j >= |prev| {
          assert (prev + last)[j] in last;
          assert i < |prev|;
          assert (prev + last)[i] in prev;
        } else {
          assert (prev + last)[i] == prev[i] && (prev + last)[j] == prev[j];
        }
      }
    }
  }

  /** An invalid report returns no messages and leaves both maps as they were. */
  lemma InvalidPacketIgnored(s: ParserState, data: seq<byte>)
    requires |data| < 17 || data[0] != 0x01
    ensures ParsePacket(s, data) == ParseResult(s, [])
  {
  }

  /** Only bytes 1 to 16 are examined: bytes after index 16 play no part. */
  lemma TrailingBytesIgnored(s: ParserState, data: seq<byte>, extra: seq<byte>)
    requires IsValidPacket(data)
    ensures ParsePacket(s, data + extra) == ParsePacket(s, data)
  {
    assert (data + extra)[1..17] == data[1..17];
  }

  /** After a valid report, every one of the 16 positions remembers its byte, and the
      state of button 5 is updated exactly on an edge. */
  lemma ValidPacketState(s: ParserState, data: seq<byte>)
    requires IsValidPacket(data)
    ensures var st := ParsePacket(s, data).state;
      && (forall p: byte :: p < 16 ==> p in st.lastValues && st.lastValues[p] == PacketByte(data, p))
      && (forall p: byte :: p >= 16 ==> AgreesAt(st, s, p))
      && st.buttonStates == if ButtonFires(s, data[6]) then s.buttonStates[5 := data[6] != 0] else s.buttonStates
  {
    ScanState(s, data[1..17], 16);
  }

  /** The messages of a valid report: only buttons and knobs, in strictly increasing id
      order; a button message exactly for an edge at position 5, then equal to the new
      pressed state; a knob message at position `p` exactly when 7 <= p <= 15 and its value
      is non-zero and differs from the remembered one. */
  lemma ValidPacketMessages(s: ParserState, data: seq<byte>)
    requires IsValidPacket(data)
    ensures var ms := ParsePacket(s, data).messages;
      && (forall m :: m in ms ==> m.Button? || m.Knob?)
      && (forall i, j :: 0 <= i < j < |ms| ==> MessageId(ms[i]) < MessageId(ms[j]))
      && (forall m :: m in ms && m.Button? ==> m == Button(5, data[6] != 0) && ButtonFires(s, data[6]))
      && (ButtonFires(s, data[6]) ==> Button(5, data[6] != 0) in ms)
      && (forall m :: m in ms && m.Knob? ==> m.knobId < 16 && m.value == PacketByte(data, m.knobId) && KnobFires(s, m.knobId, m.value))
      && (forall p: byte :: p < 16 && KnobFires(s, p, PacketByte(data, p)) ==> Knob(p, PacketByte(data, p)) in ms)
  {
    var bytes := data[1..17];
    ScanMessages(s, bytes, 16);
    MessagesFromOrdered(s, bytes, 16);
    var ms := ParsePacket(s, data).messages;
    forall m | m in ms
      ensures (m.Button? || m.Knob?)
      ensures m.Button? ==> m == Button(5, data[6] != 0) && ButtonFires(s, data[6])
      ensures m.Knob? ==> m.knobId < 16 && m.value == PacketByte(data, m.knobId) && KnobFires(s, m.knobId, m.value)
    {
      MessagesFromMembers(s, bytes, 16, m);
      var p: nat :| p < 16 && m in PositionMessages(s, p, bytes[p]);
      PositionMessagesCases(s, p, bytes[p]);
    }
    PositionMessagesCases(s, 5, bytes[5]);
    if ButtonFires(s, data[6]) {
      assert Button(5, data[6] != 0) in PositionMessages(s, 5, bytes[5]);
      MessagesFromMembers(s, bytes, 16, Button(5, data[6] != 0));
    }
    forall p: byte | p < 16 && KnobFires(s, p, PacketByte(data, p))
      ensures Knob(p, PacketByte(data, p)) in ms
    {
      PositionMessagesCases(s, p, bytes[p]);
      assert Knob(p, PacketByte(data, p)) in PositionMessages(s, p, bytes[p]);
      MessagesFromMembers(s, bytes, 16, Knob(p, PacketByte(data, p)));
    }
  }

  /** No report ever yields a fader or a pad message. */
  lemma NeverFaderOrPad(s: ParserState, data: seq<byte>)
    ensures forall m :: m in ParsePacket(s, data).messages ==> !m.Fader? && !m.Pad?
  {
    if IsValidPacket(data) {
      ValidPacketMessages(s, data);
    }
  }

  /** A fresh parser remembers no value, so its first report yields no knob message. */
  lemma FirstPacketHasNoKnob(data: seq<byte>)
    ensures forall m :: m in ParsePacket(EmptyParserState, data).messages ==> !m.Knob?
  {
    if IsValidPacket(data) {
      ValidPacketMessages(EmptyParserState, data);
    }
  }

  /** Sending the same report twice: the second time no knob turns. */
  lemma RepeatedPacketHasNoKnob(s: ParserState, data: seq<byte>)
    requires IsValidPacket(data)
    ensures forall m :: m in ParsePacket(ParsePacket(s, data).state, data).messages ==> !m.Knob?
  {
    ValidPacketState(s, data);
    ValidPacketMessages(ParsePacket(s, data).state, data);
  }

  // ---- The control table ----

  datatype MidiControlMapping = ControlChange(controller: byte) | Note(note: byte, velocity: byte)

  /** A MIDI channel and the control assigned to each named control. */
  datatype MidiControlTable = MidiControlTable(channel: byte, mappings: map<string, MidiControlMapping>)

  datatype MaschineJamMidiMapping = MaschineJamMidiMapping(mapping: MidiControlTable)

  /** `format!("knob_{}", i)`. */
  function KnobKey(i: nat): string { "knob_" + Dec(i) }

  /** `format!("pad_{}", i)`. */
  function PadKey(i: nat): string { "pad_" + Dec(i) }

  const TransportKeys: set<string> := {"button_5", "button_6", "button_7", "button_8"}

  /** The keys of the first `n` knobs, or pads. */
  function KnobKeys(n: nat): set<string> { set i: nat | i < n :: KnobKey(i) }

  function PadKeys(n: nat): set<string> { set i: nat | i < n :: PadKey(i) }

  /** The transport controls: stop, play, record and loop on CC 0x7B to 0x7E. */
  predicate HasTransportControls(m: map<string, MidiControlMapping>)
  {
    && "button_5" in m && m["button_5"] == ControlChange(0x7B)
    && "button_6" in m && m["button_6"] == ControlChange(0x7C)
    && "button_7" in m && m["button_7"] == ControlChange(0x7D)
    && "button_8" in m && m["button_8"] == ControlChange(0x7E)
  }

  /** The Maschine Jam table: channel 0, the four transport buttons, knobs 0 to 7 on CC 16 to
      23, and pads 0 to 15 on notes 36 to 51 at velocity 100, and nothing else. */
  predicate IsMaschineJamTable(t: MidiControlTable)
  {
    && t.channel == 0
    && t.mappings.Keys == TransportKeys + KnobKeys(8) + PadKeys(16)
    && HasTransportControls(t.mappings)
    && KnobsMapped(t.mappings, 8)
    && PadsMapped(t.mappings, 16)
  }

  /** Numbered keys with the same prefix are equal exactly when their numbers are. */
  lemma NumberedKeyInjective(prefix: string, a: nat, b: nat)
    ensures prefix + Dec(a) == prefix + Dec(b) <==> a == b
  {
    if prefix + Dec(a) == prefix + Dec(b) {
      assert (prefix + Dec(a))[|prefix|..] == Dec(a);
      assert (prefix + Dec(b))[|prefix|..] == Dec(b);
      DigitsInjective(a, b, 10);
    }
  }

  /** All 28 keys of the table are different: knob and pad keys by their number, and the
      three families by their first letter. */
  lemma TableKeysDistinct(i: nat, j: nat)
    ensures KnobKey(i) == KnobKey(j) <==> i == j
    ensures PadKey(i) == PadKey(j) <==> i == j
    ensures KnobKey(i) != PadKey(j)
    ensures KnobKey(i) !in TransportKeys && PadKey(j) !in TransportKeys
  {
    NumberedKeyInjective("knob_", i, j);
    NumberedKeyInjective("pad_", i, j);
    assert KnobKey(i)[0] == 'k' && PadKey(j)[0] == 'p';
  }

  /** The knobs numbered below `n` are on CC 16 onwards. */
  predicate KnobsMapped(m: map<string, MidiControlMapping>, n: nat)
    requires n <= 8
  {
    forall i: nat :: i < n ==> KnobKey(i) in m && m[KnobKey(i)] == ControlChange(0x10 + i)
  }

  /** The pads numbered below `n` are on note 36 onwards at velocity 100. */
  predicate PadsMapped(m: map<string, MidiControlMapping>, n: nat)
    requires n <= 16
  {
    forall i: nat :: i < n ==> PadKey(i) in m && m[PadKey(i)] == Note(36 + i, 100)
  }

  /** The table after the first `n` iterations of the knob loop. */
  predicate KnobLoopDone(m: map<string, MidiControlMapping>, n: nat)
    requires n <= 8
  {
    m.Keys == TransportKeys + KnobKeys(n) && HasTransportControls(m) && KnobsMapped(m, n)
  }

  /** The table after the first `n` iterations of the pad loop. */
  predicate PadLoopDone(m: map<string, MidiControlMapping>, n: nat)
    requires n <= 16
  {
    m.Keys == TransportKeys + KnobKeys(8) + PadKeys(n) && HasTransportControls(m)
    && KnobsMapped(m, 8) && PadsMapped(m, n)
  }

  /** One iteration of the knob loop adds a new key and keeps every earlier one. */
  lemma KnobLoopStep(m: map<string, MidiControlMapping>, i: nat)
    requires i < 8 && KnobLoopDone(m, i)
    ensures KnobLoopDone(m[KnobKey(i) := ControlChange(0x10 + i)], i + 1)
  {
    var m' := m[KnobKey(i) := ControlChange(0x10 + i)];
    TableKeysDistinct(i, 0);
    assert KnobKeys(i + 1) == KnobKeys(i) + {KnobKey(i)} by {
      forall k | k in KnobKeys(i + 1) ensures k in KnobKeys(i) + {KnobKey(i)} {
        var j: nat :| j < i + 1 && k == KnobKey(j);
      }
    }
    assert m'.Keys == TransportKeys + KnobKeys(i + 1);
    assert HasTransportControls(m');
    forall j: nat | j < i + 1
      ensures KnobKey(j) in m' && m'[KnobKey(j)] == ControlChange(0x10 + j)
    {
      if j < i {
        TableKeysDistinct(j, i);
      }
    }
  }

  /** One iteration of the pad loop adds a new key and keeps every earlier one. */
  lemma PadLoopStep(m: map<string, MidiControlMapping>, i: nat)
    requires i < 16 && PadLoopDone(m, i)
    ensures PadLoopDone(m[PadKey(i) := Note(36 + i, 100)], i + 1)
  {
    var m' := m[PadKey(i) := Note(36 + i, 100)];
    TableKeysDistinct(0, i);
    assert PadKeys(i + 1) == PadKeys(i) + {PadKey(i)} by {
      forall k | k in PadKeys(i + 1) ensures k in PadKeys(i) + {PadKey(i)} {
        var j: nat :| j < i + 1 && k == PadKey(j);
      }
    }
    assert m'.Keys == TransportKeys + KnobKeys(8) + PadKeys(i + 1);
    assert HasTransportControls(m');
    forall j: nat | j < 8
      ensures KnobKey(j) in m' && m'[KnobKey(j)] == ControlChange(0x10 + j)
    {
      TableKeysDistinct(j, i);
    }
    forall j: nat | j < i + 1
      ensures PadKey(j) in m' && m'[PadKey(j)] == Note(36 + j, 100)
    {
      if j < i {
        TableKeysDistinct(j, i);
      }
    }
  }

  /** `MaschineJamMidiMapping::new`: the transport buttons, then a loop over the knobs and a
      loop over the pads. */
  method NewMaschineJamMidiMapping() returns (r: MaschineJamMidiMapping)
    ensures IsMaschineJamTable(r.mapping)
  {
    var mappings: map<string, MidiControlMapping> := map[];
    mappings := mappings["button_5" := ControlChange(0x7B)];
    mappings := mappings["button_6" := ControlChange(0x7C)];
    mappings := mappings["button_7" := ControlChange(0x7D)];
    mappings := mappings["button_8" := ControlChange(0x7E)];
    assert KnobKeys(0) == {};
    for i := 0 to 8
      invariant KnobLoopDone(mappings, i)
    {
      KnobLoopStep(mappings, i);
      mappings := mappings[KnobKey(i) := ControlChange(0x10 + i)];
    }
    assert PadKeys(0) == {};
    for i := 0 to 16
      invariant PadLoopDone(mappings, i)
    {
      PadLoopStep(mappings, i);
      mappings := mappings[PadKey(i) := Note(36 + i, 100)];
    }
    r := MaschineJamMidiMapping(MidiControlTable(0, mappings));
  }

  // ---- The bridge and its lifecycle ----

  /** `MaschineJamMidiBridge`. The MIDI translator is not modelled; `sent` is the sequence
      of messages handed to it, in order. */
  class MaschineJamMidiBridge {
    const parser: MaschineJamParser
    const mapping: MaschineJamMidiMapping
    var sent: seq<UsbMessage>

    constructor (p: MaschineJamParser, m: MaschineJamMidiMapping)
      ensures parser == p && mapping == m && sent == []
    {
      parser := p;
      mapping := m;
      sent := [];
    }

    /** `process_usb_data`: parse the report and hand each message on, in order. A failed
        send is only logged, so the result is always `Ok`. */
    method ProcessUsbData(data: seq<byte>) returns (r: Result<(), string>)
      modifies this, parser
      ensures r == Ok(())
      ensures parser.State() == ParsePacket(old(parser.State()), data).state
      ensures sent == old(sent) + ParsePacket(old(parser.State()), data).messages
    {
      var usbMessages := parser.ParseUsbData(data);
      for i := 0 to |usbMessages|
        invariant sent == old(sent) + usbMessages[..i]
        invariant parser.State() == ParsePacket(old(parser.State()), data).state
        invariant usbMessages == ParsePacket(old(parser.State()), data).messages
      {
        sent := sent + [usbMessages[i]];
      }
      return Ok(());
    }
  }

  /** `MaschineJamMidiBridge::new`: creating the virtual port is the only step that can
      fail; `port` is its outcome. */
  method NewMaschineJamMidiBridge(port: Result<(), string>) returns (r: Result<MaschineJamMidiBridge, string>)
    ensures r.Ok? <==> port.Ok?
    ensures port.Err? ==> r == Err(port.error)
    ensures r.Ok? ==> (fresh(r.value) && fresh(r.value.parser)
      && r.value.parser.State() == EmptyParserState && r.value.sent == []
      && IsMaschineJamTable(r.value.mapping.mapping))
  {
    if port.Err? {
      return Err(port.error);
    }
    var parser := new MaschineJamParser();
    var mapping := NewMaschineJamMidiMapping();
    var bridge := new MaschineJamMidiBridge(parser, mapping);
    return Ok(bridge);
  }

  /** The Maschine Jam's vendor and product ids. */
  const MaschineJamId := DeviceId(0x17cc, 0x1500)

  /** A freshly built bridge: new parser, nothing sent, the Maschine Jam table. */
  predicate IsFreshBridge(b: MaschineJamMidiBridge)
    reads b, b.parser
  {
    b.parser.State() == EmptyParserState && b.sent == [] && IsMaschineJamTable(b.mapping.mapping)
  }

  /** `MidiEnabledRusbHidEventHandler`. */
  class MidiEnabledRusbHidEventHandler {
    var midiBridge: Option<MaschineJamMidiBridge>

    constructor ()
      ensures midiBridge == None
    {
      midiBridge := None;
    }

    /** `with_midi_bridge`: install a new bridge, or fail and keep the old one. */
    method WithMidiBridge(port: Result<(), string>) returns (r: Result<(), string>)
      modifies this
      ensures r.Ok? <==> port.Ok?
      ensures port.Err? ==> r == Err(port.error) && midiBridge == old(midiBridge)
      ensures port.Ok? ==> (midiBridge.Some? && fresh(midiBridge.value) && fresh(midiBridge.value.parser)
        && IsFreshBridge(midiBridge.value))
    {
      var bridge := NewMaschineJamMidiBridge(port);
      if bridge.Err? {
        return Err(bridge.error);
      }
      midiBridge := Some(bridge.value);
      return Ok(());
    }

    /** `handle_event`, with `port` the outcome of creating a virtual port should the event
        ask for a bridge. A Maschine Jam connection installs a fresh bridge when the port
        can be created; its disconnection drops the bridge; other devices' connections and
        disconnections and all errors change nothing; a report from any device is fed to
        the bridge, if there is one. */
    method HandleEvent(event: Event, port: Result<(), string>)
      modifies this
      modifies if midiBridge.Some? then {midiBridge.value} else {}
      modifies if midiBridge.Some? then {midiBridge.value.parser} else {}
      ensures event.DeviceConnected? && event.id == MaschineJamId && port.Ok? ==>
        midiBridge.Some? && fresh(midiBridge.value) && fresh(midiBridge.value.parser) && IsFreshBridge(midiBridge.value)
      ensures event.DeviceConnected? && (event.id != MaschineJamId || port.Err?) ==> midiBridge == old(midiBridge)
      ensures event.DeviceDisconnected? ==>
        midiBridge == if event.id == MaschineJamId then None else old(midiBridge)
      ensures event.Error? ==> midiBridge == old(midiBridge)
      ensures event.InputReport? ==> midiBridge == old(midiBridge)
      ensures event.InputReport? && midiBridge.Some? ==>
        && midiBridge.value.parser.State() == ParsePacket(old(midiBridge.value.parser.State()), event.data).state
        && midiBridge.value.sent == old(midiBridge.value.sent) + ParsePacket(old(midiBridge.value.parser.State()), event.data).messages
      ensures !event.InputReport? && old(midiBridge).Some? ==>
        unchanged(old(midiBridge).value, old(midiBridge).value.parser)
    {
      match event {
        case DeviceConnected(id) =>
          if id == MaschineJamId {
            var bridge := NewMaschineJamMidiBridge(port);
            if bridge.Ok? {
              midiBridge := Some(bridge.value);
            }
          }
        case DeviceDisconnected(id) =>
          if id == MaschineJamId {
            midiBridge := None;
          }
        case InputReport(_, data) =>
          if midiBridge.Some? {
            var _ := midiBridge.value.ProcessUsbData(data);
          }
        case Error(_, _) =>
      }
    }
  }
}
