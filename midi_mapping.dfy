/** Mapping rules as loaded from the configuration: the per-byte pattern language
    (`Exact`, `Wildcard`, `Range`), its matching rule, and the validation that turns one
    configuration value into a pattern byte. The configuration value is an abstract TOML
    value; reading and tokenising the file is not part of this model. */
module MidiMapping {
  import opened Common

  datatype PatternByte = Exact(expected: byte) | Wildcard | Range(min: byte, max: byte)

  /** `PatternByte::matches`. */
  predicate Matches(p: PatternByte, b: byte)
  {
    match p
    case Exact(e) => e == b
    case Wildcard => true
    case Range(lo, hi) => b >= lo && b <= hi
  }

  /** The TOML values a pattern byte can be given as. `TomlOther` stands for floats,
      booleans, arrays and datetimes, which the validation treats alike. TOML integers are
      64-bit; only the range check below matters here. */
  datatype TomlValue =
    | TomlString(s: string)
    | TomlInteger(n: int)
    | TomlTable(entries: map<string, TomlValue>)
    | TomlOther

  const ErrByteOutOfRange := "Byte value out of range"
  const ErrMissingMin := "Missing or invalid min in range"
  const ErrMissingMax := "Missing or invalid max in range"
  const ErrInvalidRange := "Invalid range values"
  const ErrInvalidFormat := "Invalid pattern byte format"

  /** `obj.remove(key).and_then(|v| v.as_integer())`. */
  function IntegerEntry(obj: map<string, TomlValue>, key: string): Option<int>
  {
    if key in obj && obj[key].TomlInteger? then Some(obj[key].n) else None
  }

  predicate InByteRange(n: int)
  {
    0 <= n <= 255
  }

  /** The deserialiser of `PatternByte`: the string "any" is a wildcard, an integer in
      0..255 an exact byte, a table with integer `min` and `max` in 0..255 a range (other
      keys ignored, `min <= max` not required); everything else is an error. */
  function DeserializePatternByte(v: TomlValue): (r: Result<PatternByte, string>)
  {
    match v
    case TomlString(s) =>
      if s == "any" then Ok(Wildcard) else Err(ErrInvalidFormat)
    case TomlInteger(n) =>
      if n < 0 || n > 255 then Err(ErrByteOutOfRange) else Ok(Exact(n))
    case TomlTable(obj) =>
      (match IntegerEntry(obj, "min")
       case None => Err(ErrMissingMin)
       case Some(lo) =>
         (match IntegerEntry(obj, "max")
          case None => Err(ErrMissingMax)
          case Some(hi) =>
            if lo < 0 || lo > 255 || hi < 0 || hi > 255 then Err(ErrInvalidRange)
            else Ok(Range(lo, hi))))
    case TomlOther => Err(ErrInvalidFormat)
  }

  /** The value a configuration author writes for a pattern byte; the inverse of the
      deserialiser. */
  function SerializePatternByte(p: PatternByte): TomlValue
  {
    match p
    case Exact(e) => TomlInteger(e)
    case Wildcard => TomlString("any")
    case Range(lo, hi) => TomlTable(map["min" := TomlInteger(lo), "max" := TomlInteger(hi)])
  }

  /** A mapping rule: optional vendor and product filters, a prefix pattern over the
      report, and the MIDI bytes to emit. */
  datatype MidiMappingRule = MidiMappingRule(
    vendorId: Option<u16>,
    productId: Option<u16>,
    usbPattern: seq<PatternByte>,
    midiMessage: seq<byte>)

  /** Deserialising a whole `usb_pattern` array: the first invalid element fails it. */
  function DeserializePattern(vs: seq<TomlValue>): (r: Result<seq<PatternByte>, string>)
    decreases |vs|
  {
    if vs == [] then Ok([])
    else
      match DeserializePatternByte(vs[0])
      case Err(e) => Err(e)
      case Ok(p) =>
        match DeserializePattern(vs[1..])
        case Err(e) => Err(e)
        case Ok(ps) => Ok([p] + ps)
  }

  // ---- Matching ----

  lemma ExactMatchesOnlyItsByte(e: byte, b: byte)
    ensures Matches(Exact(e), b) <==> b == e
  {
  }

  lemma WildcardMatchesEveryByte(b: byte)
    ensures Matches(Wildcard, b)
  {
  }

  /** A range is an inclusive bound check: it matches both of its bounds and rejects the
      byte just above its maximum. */
  lemma RangeBoundaries(lo: byte, hi: byte, b: byte)
    ensures Matches(Range(lo, hi), b) <==> lo <= b <= hi
    ensures lo <= hi ==> Matches(Range(lo, hi), lo) && Matches(Range(lo, hi), hi)
    ensures hi < 255 ==> !Matches(Range(lo, hi), hi + 1)
  {
  }

  /** A range whose minimum exceeds its maximum is accepted by the deserialiser and then
      matches no byte at all. */
  lemma InvertedRangeAcceptedButEmpty(lo: byte, hi: byte)
    requires lo > hi
    ensures DeserializePatternByte(TomlTable(map["min" := TomlInteger(lo), "max" := TomlInteger(hi)])) == Ok(Range(lo, hi))
    ensures forall b: byte :: !Matches(Range(lo, hi), b)
  {
  }

  // ---- Deserialisation ----

  /** Exactly the string "any" gives a wildcard; any other string is a format error. */
  lemma StringDeserialization(s: string)
    ensures DeserializePatternByte(TomlString(s)) == if s == "any" then Ok(Wildcard) else Err(ErrInvalidFormat)
  {
  }

  /** An integer gives `Exact(n)` iff it lies in 0..255; otherwise it is out of range. */
  lemma IntegerDeserialization(n: int)
    ensures DeserializePatternByte(TomlInteger(n)).Ok? <==> InByteRange(n)
    ensures InByteRange(n) ==> DeserializePatternByte(TomlInteger(n)) == Ok(Exact(n))
    ensures !InByteRange(n) ==> DeserializePatternByte(TomlInteger(n)) == Err(ErrByteOutOfRange)
  {
  }

  /** Floats, booleans, arrays and datetimes are never pattern bytes. */
  lemma OtherValuesRejected()
    ensures DeserializePatternByte(TomlOther) == Err(ErrInvalidFormat)
  {
  }

  /** A table is a range iff both bounds are present as integers in 0..255. A missing or
      non-integer `min` is reported before anything about `max`. */
  lemma TableDeserialization(obj: map<string, TomlValue>)
    ensures DeserializePatternByte(TomlTable(obj)).Ok? <==>
      (IntegerEntry(obj, "min").Some? && IntegerEntry(obj, "max").Some?
       && InByteRange(IntegerEntry(obj, "min").value) && InByteRange(IntegerEntry(obj, "max").value))
    ensures DeserializePatternByte(TomlTable(obj)).Ok? ==>
      DeserializePatternByte(TomlTable(obj)).value ==
        Range(IntegerEntry(obj, "min").value, IntegerEntry(obj, "max").value)
    ensures IntegerEntry(obj, "min").None? ==> DeserializePatternByte(TomlTable(obj)) == Err(ErrMissingMin)
  {
  }

  /** Keys other than `min` and `max` make no difference to a table's outcome. */
  lemma ExtraTableKeysIgnored(obj: map<string, TomlValue>, k: string, x: TomlValue)
    requires k != "min" && k != "max"
    ensures DeserializePatternByte(TomlTable(obj[k := x])) == DeserializePatternByte(TomlTable(obj))
  {
    assert IntegerEntry(obj[k := x], "min") == IntegerEntry(obj, "min");
    assert IntegerEntry(obj[k := x], "max") == IntegerEntry(obj, "max");
  }

  /** Every pattern byte can be written in the configuration and read back unchanged. */
  lemma DeserializeSerializeRoundTrip(p: PatternByte)
    ensures DeserializePatternByte(SerializePatternByte(p)) == Ok(p)
  {
    match p
    case Range(lo, hi) =>
      var obj := map["min" := TomlInteger(lo), "max" := TomlInteger(hi)];
      assert IntegerEntry(obj, "min") == Some(lo);
      assert IntegerEntry(obj, "max") == Some(hi);
    case _ =>
  }

  /** A pattern array loads iff every element does; then element `i` of the result is the
      deserialisation of element `i`. One bad element fails the whole array. */
  lemma {:induction false} DeserializePatternAllOrNothing(vs: seq<TomlValue>)
    ensures DeserializePattern(vs).Ok? <==> forall i :: 0 <= i < |vs| ==> DeserializePatternByte(vs[i]).Ok?
    ensures DeserializePattern(vs).Ok? ==>
      |DeserializePattern(vs).value| == |vs| &&
      forall i :: 0 <= i < |vs| ==> DeserializePattern(vs).value[i] == DeserializePatternByte(vs[i]).value
    decreases |vs|
  {
    if vs != [] {
      DeserializePatternAllOrNothing(vs[1..]);
      if DeserializePatternByte(vs[0]).Ok? && DeserializePattern(vs[1..]).Ok? {
        var ps := DeserializePattern(vs).value;
        forall i | 0 <= i < |vs|
          ensures ps[i] == DeserializePatternByte(vs[i]).value
        {
          if i > 0 { assert vs[1..][i - 1] == vs[i]; }
        }
      }
      if forall i :: 0 <= i < |vs| ==> DeserializePatternByte(vs[i]).Ok? {
        forall i | 0 <= i < |vs| - 1
          ensures DeserializePatternByte(vs[1..][i]).Ok?
        {
          assert vs[1..][i] == vs[i + 1];
        }
      }
    }
  }
}
