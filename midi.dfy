/** The translation engine: given one raw report and the reporting device's ids, every
    mapping rule whose vendor filter, product filter and byte pattern all match contributes
    its MIDI message, in rule order. There is no first-match short-circuit. Also the
    passthrough translator, which forwards the report unchanged. */
module Midi {
  import opened Common
  import opened MidiMapping

  /** `matches_pattern` as a property: the report is at least as long as the pattern and
      every pattern position matches the report byte at that position. Trailing bytes are
      not examined. */
  predicate PatternMatches(data: seq<byte>, pattern: seq<PatternByte>)
  {
    |data| >= |pattern| && forall i :: 0 <= i < |pattern| ==> Matches(pattern[i], data[i])
  }

  /** `mapping.vendor_id.map_or(true, |vid| Some(vid) == vendor_id)`, and likewise for the
      product. */
  predicate FilterMatches(filter: Option<u16>, arg: Option<u16>)
  {
    match filter
    case None => true
    case Some(want) => arg == Some(want)
  }

  /** The three conditions under which a rule contributes its message. */
  predicate Fires(m: MidiMappingRule, data: seq<byte>, vendorId: Option<u16>, productId: Option<u16>)
  {
    FilterMatches(m.vendorId, vendorId) && FilterMatches(m.productId, productId)
    && PatternMatches(data, m.usbPattern)
  }

  /** The messages of the firing rules, in rule order. */
  function Translate(mappings: seq<MidiMappingRule>, data: seq<byte>, vendorId: Option<u16>, productId: Option<u16>): seq<seq<byte>>
    decreases |mappings|
  {
    if mappings == [] then []
    else
      var last := mappings[|mappings| - 1];
      Translate(mappings[..|mappings| - 1], data, vendorId, productId)
        + (if Fires(last, data, vendorId, productId) then [last.midiMessage] else [])
  }

  /** `MappingUsbToMidi::matches_pattern`: a length check, then an indexed loop that stops
      at the first mismatch. */
  method MatchesPattern(data: seq<byte>, pattern: seq<PatternByte>) returns (b: bool)
    ensures b == PatternMatches(data, pattern)
  {
    if |data| < |pattern| {
      return false;
    }
    for i := 0 to |pattern|
      invariant forall j :: 0 <= j < i ==> Matches(pattern[j], data[j])
    {
      if !Matches(pattern[i], data[i]) {
        return false;
      }
    }
    return true;
  }

  /** `MappingUsbToMidi::translate_usb_to_midi`: one pass over the rules, pushing the
      message of every rule that fires. */
  method TranslateUsbToMidi(mappings: seq<MidiMappingRule>, data: seq<byte>, vendorId: Option<u16>, productId: Option<u16>)
    returns (result: seq<seq<byte>>)
    ensures result == Translate(mappings, data, vendorId, productId)
  {
    result := [];
    for k := 0 to |mappings|
      invariant result == Translate(mappings[..k], data, vendorId, productId)
    {
      var mapping := mappings[k];
      var matchesVendor := FilterMatches(mapping.vendorId, vendorId);
      var matchesProduct := FilterMatches(mapping.productId, productId);
      var matchesPattern := MatchesPattern(data, mapping.usbPattern);
      assert mappings[..k + 1][..k] == mappings[..k];
      if matchesVendor && matchesProduct && matchesPattern {
        result := result + [mapping.midiMessage];
      }
    }
    assert mappings[..|mappings|] == mappings;
  }

  /** `PassthroughUsbToMidi`: the report itself as the single message, whatever the ids. */
  function Passthrough(data: seq<byte>, vendorId: Option<u16>, productId: Option<u16>): (r: seq<seq<byte>>)
    ensures |r| == 1 && r[0] == data
  {
    [data]
  }

  // ---- Pattern matching ----

  /** A report shorter than the pattern never matches it. */
  lemma ShortReportNeverMatches(data: seq<byte>, pattern: seq<PatternByte>)
    requires |data| < |pattern|
    ensures !PatternMatches(data, pattern)
  {
  }

  /** The empty pattern matches every report. */
  lemma EmptyPatternMatchesAll(data: seq<byte>)
    ensures PatternMatches(data, [])
  {
  }

  /** Bytes after the pattern's length play no part. */
  lemma TrailingBytesIgnored(data: seq<byte>, extra: seq<byte>, pattern: seq<PatternByte>)
    requires |data| >= |pattern|
    ensures PatternMatches(data + extra, pattern) <==> PatternMatches(data, pattern)
  {
    assert forall i :: 0 <= i < |pattern| ==> (data + extra)[i] == data[i];
  }

  /** An unset filter accepts every argument, including an absent one; a set filter
      accepts only that very id. */
  lemma FilterSemantics(want: u16, arg: Option<u16>)
    ensures FilterMatches(None, arg)
    ensures FilterMatches(Some(want), arg) <==> arg == Some(want)
  {
  }

  // ---- Translation ----

  /** Translating a concatenation of rule lists is concatenating the translations: every
      firing rule contributes, in order, and no rule suppresses another. */
  lemma {:induction false} TranslateAppend(a: seq<MidiMappingRule>, b: seq<MidiMappingRule>, data: seq<byte>, vendorId: Option<u16>, productId: Option<u16>)
    ensures Translate(a + b, data, vendorId, productId) == Translate(a, data, vendorId, productId) + Translate(b, data, vendorId, productId)
    decreases |b|
  {
    if b != [] {
      var b' := b[..|b| - 1];
      assert (a + b)[..|a + b| - 1] == a + b';
      assert (a + b)[|a + b| - 1] == b[|b| - 1];
      TranslateAppend(a, b', data, vendorId, productId);
    } else {
      assert a + b == a;
    }
  }

  /** A single rule yields its message iff it fires. */
  lemma TranslateSingle(m: MidiMappingRule, data: seq<byte>, vendorId: Option<u16>, productId: Option<u16>)
    ensures Translate([m], data, vendorId, productId) == if Fires(m, data, vendorId, productId) then [m.midiMessage] else []
  {
    assert [m][..0] == [];
  }

  /** No more messages than rules; none at all without rules. */
  lemma {:induction false} TranslateLength(mappings: seq<MidiMappingRule>, data: seq<byte>, vendorId: Option<u16>, productId: Option<u16>)
    ensures |Translate(mappings, data, vendorId, productId)| <= |mappings|
    ensures mappings == [] ==> Translate(mappings, data, vendorId, productId) == []
    decreases |mappings|
  {
    if mappings != [] {
      TranslateLength(mappings[..|mappings| - 1], data, vendorId, productId);
    }
  }

  /** A message is produced exactly when some rule carrying it fires. */
  lemma {:induction false} TranslateMembers(mappings: seq<MidiMappingRule>, data: seq<byte>, vendorId: Option<u16>, productId: Option<u16>, msg: seq<byte>)
    ensures msg in Translate(mappings, data, vendorId, productId) <==>
      exists i :: 0 <= i < |mappings| && Fires(mappings[i], data, vendorId, productId) && mappings[i].midiMessage == msg
    decreases |mappings|
  {
    if mappings != [] {
      var init := mappings[..|mappings| - 1];
      TranslateMembers(init, data, vendorId, productId, msg);
      if exists i :: 0 <= i < |init| && Fires(init[i], data, vendorId, productId) && init[i].midiMessage == msg {
        var i :| 0 <= i < |init| && Fires(init[i], data, vendorId, productId) && init[i].midiMessage == msg;
        assert mappings[i] == init[i];
      }
      if exists i :: 0 <= i < |mappings| && Fires(mappings[i], data, vendorId, productId) && mappings[i].midiMessage == msg {
        var i :| 0 <= i < |mappings| && Fires(mappings[i], data, vendorId, productId) && mappings[i].midiMessage == msg;
        if i < |init| {
          assert init[i] == mappings[i];
        }
      }
    }
  }

  /** A rule whose pattern is longer than the report never contributes. */
  lemma LongPatternNeverFires(m: MidiMappingRule, data: seq<byte>, vendorId: Option<u16>, productId: Option<u16>)
    requires |data| < |m.usbPattern|
    ensures Translate([m], data, vendorId, productId) == []
  {
    TranslateSingle(m, data, vendorId, productId);
  }

  /** The passthrough translator does not look at the ids. */
  lemma PassthroughIgnoresIds(data: seq<byte>, v1: Option<u16>, p1: Option<u16>, v2: Option<u16>, p2: Option<u16>)
    ensures Passthrough(data, v1, p1) == Passthrough(data, v2, p2)
  {
  }

  /** A 17-byte report with header 0x01 and 0x10 at offset 5, against a rule without
      filters and the pattern [Exact(0x01), four wildcards, Range(0x10, 0x60)], yields one
      message; with 0x70 at offset 5 it yields none. */
  lemma ButtonRuleScenario(msg: seq<byte>, rest: seq<byte>)
    requires |rest| == 11
    ensures var rule := MidiMappingRule(None, None, [Exact(0x01), Wildcard, Wildcard, Wildcard, Wildcard, Range(0x10, 0x60)], msg);
      && Translate([rule], [0x01, 0, 0, 0, 0, 0x10] + rest, None, None) == [msg]
      && Translate([rule], [0x01, 0, 0, 0, 0, 0x70] + rest, None, None) == []
  {
    var rule := MidiMappingRule(None, None, [Exact(0x01), Wildcard, Wildcard, Wildcard, Wildcard, Range(0x10, 0x60)], msg);
    TranslateSingle(rule, [0x01, 0, 0, 0, 0, 0x10] + rest, None, None);
    TranslateSingle(rule, [0x01, 0, 0, 0, 0, 0x70] + rest, None, None);
    assert !Matches(rule.usbPattern[5], ([0x01, 0, 0, 0, 0, 0x70] + rest)[5]);
  }
}
