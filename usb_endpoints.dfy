/** The endpoint choice of the libusb device manager: the first endpoint, in interface,
    then alternate-setting, then endpoint order, whose direction is IN and whose transfer
    type is Interrupt. Direction and transfer type are decoded from the endpoint
    descriptor as section 9.6.6 of the USB 2.0 specification lays out: bit 7 of
    `bEndpointAddress` is the direction (set for IN), bits 1..0 of `bmAttributes` the
    transfer type. */
module UsbEndpoints {
  import opened Common

  datatype Direction = In | Out

  datatype TransferType = Control | Isochronous | Bulk | Interrupt

  /** An endpoint descriptor: `bEndpointAddress` and `bmAttributes`. */
  datatype EndpointDescriptor = EndpointDescriptor(address: byte, attributes: byte)

  /** One alternate setting of an interface, with its endpoints. */
  datatype InterfaceDescriptor = InterfaceDescriptor(endpoints: seq<EndpointDescriptor>)

  /** An interface: its number and its alternate settings. */
  datatype Interface = Interface(number: byte, descriptors: seq<InterfaceDescriptor>)

  datatype ConfigDescriptor = ConfigDescriptor(interfaces: seq<Interface>)

  function DirectionOf(ep: EndpointDescriptor): (d: Direction)
    ensures d == In <==> ep.address >= 0x80
  {
    if ep.address >= 0x80 then In else Out
  }

  function TransferTypeOf(ep: EndpointDescriptor): (t: TransferType)
    ensures t == Interrupt <==> ep.attributes % 4 == 3
  {
    match ep.attributes % 4
    case 0 => Control
    case 1 => Isochronous
    case 2 => Bulk
    case _ => Interrupt
  }

  /** An endpoint together with the number of the interface it belongs to. */
  datatype Candidate = Candidate(interface: byte, endpoint: EndpointDescriptor)

  predicate Selected(c: Candidate)
  {
    DirectionOf(c.endpoint) == In && TransferTypeOf(c.endpoint) == Interrupt
  }

  /** The endpoints of one alternate setting, tagged with the interface number. */
  function EndpointsOf(number: byte, eps: seq<EndpointDescriptor>): (r: seq<Candidate>)
    ensures |r| == |eps| && forall k :: 0 <= k < |eps| ==> r[k] == Candidate(number, eps[k])
  {
    seq(|eps|, k requires 0 <= k < |eps| => Candidate(number, eps[k]))
  }

  /** The endpoints of all alternate settings of one interface, in order. */
  function AltsFlat(number: byte, alts: seq<InterfaceDescriptor>): seq<Candidate>
    decreases |alts|
  {
    if alts == [] then []
    else AltsFlat(number, alts[..|alts| - 1]) + EndpointsOf(number, alts[|alts| - 1].endpoints)
  }

  /** Every endpoint of every interface, in the order the search visits them. */
  function Flatten(ifaces: seq<Interface>): seq<Candidate>
    decreases |ifaces|
  {
    if ifaces == [] then []
    else Flatten(ifaces[..|ifaces| - 1]) + AltsFlat(ifaces[|ifaces| - 1].number, ifaces[|ifaces| - 1].descriptors)
  }

  /** The first selected candidate of a list. */
  function FirstSelected(cs: seq<Candidate>): Option<Candidate>
    decreases |cs|
  {
    if cs == [] then None else if Selected(cs[0]) then Some(cs[0]) else FirstSelected(cs[1..])
  }

  /** `find_interrupt_endpoint`: nothing without an active configuration, else the
      interface number and address of the first IN interrupt endpoint. */
  function FindInterruptEndpoint(config: Option<ConfigDescriptor>): Option<(byte, byte)>
  {
    if config.None? then None
    else match FirstSelected(Flatten(config.value.interfaces))
      case None => None
      case Some(c) => Some((c.interface, c.endpoint.address))
  }

  /** `find_interrupt_endpoint` as the loops it is: over the interfaces, then (in
      `SearchAlts`) over their alternate settings, then (in `SearchEndpoints`) over their
      endpoints, returning at the first IN interrupt endpoint. */
  method FindInterruptEndpointLoop(config: Option<ConfigDescriptor>) returns (r: Option<(byte, byte)>)
    ensures r == FindInterruptEndpoint(config)
  {
    if config.None? {
      return None;
    }
    var ifaces := config.value.interfaces;
    for i := 0 to |ifaces|
      invariant FirstSelected(Flatten(ifaces[..i])) == None
    {
      var interface := ifaces[i];
      var found := SearchAlts(interface.number, interface.descriptors);
      assert ifaces[..i + 1][..i] == ifaces[..i];
      FirstSelectedAppend(Flatten(ifaces[..i]), AltsFlat(interface.number, interface.descriptors));
      if found.Some? {
        assert ifaces == ifaces[..i + 1] + ifaces[i + 1..];
        FlattenAppend(ifaces[..i + 1], ifaces[i + 1..]);
        FirstSelectedAppend(Flatten(ifaces[..i + 1]), Flatten(ifaces[i + 1..]));
        return Some((found.value.interface, found.value.endpoint.address));
      }
    }
    assert ifaces[..|ifaces|] == ifaces;
    return None;
  }

  /** The alternate-setting loop of one interface: the first selected endpoint over all its
      settings in order. */
  method SearchAlts(number: byte, alts: seq<InterfaceDescriptor>) returns (r: Option<Candidate>)
    ensures r == FirstSelected(AltsFlat(number, alts))
  {
    for j := 0 to |alts|
      invariant FirstSelected(AltsFlat(number, alts[..j])) == None
    {
      r := SearchEndpoints(number, alts[j].endpoints);
      assert alts[..j + 1][..j] == alts[..j];
      FirstSelectedAppend(AltsFlat(number, alts[..j]), EndpointsOf(number, alts[j].endpoints));
      if r.Some? {
        assert alts == alts[..j + 1] + alts[j + 1..];
        AltsFlatAppend(number, alts[..j + 1], alts[j + 1..]);
        FirstSelectedAppend(AltsFlat(number, alts[..j + 1]), AltsFlat(number, alts[j + 1..]));
        return r;
      }
    }
    assert alts[..|alts|] == alts;
    return None;
  }

  /** The endpoint loop of one alternate setting: its first IN interrupt endpoint. */
  method SearchEndpoints(number: byte, eps: seq<EndpointDescriptor>) returns (r: Option<Candidate>)
    ensures r == FirstSelected(EndpointsOf(number, eps))
  {
    for k := 0 to |eps|
      invariant FirstSelected(EndpointsOf(number, eps[..k])) == None
    {
      var c := Candidate(number, eps[k]);
      assert EndpointsOf(number, eps[..k + 1]) == EndpointsOf(number, eps[..k]) + [c];
      FirstSelectedAppend(EndpointsOf(number, eps[..k]), [c]);
      if DirectionOf(eps[k]) == In && TransferTypeOf(eps[k]) == Interrupt {
        assert EndpointsOf(number, eps) == EndpointsOf(number, eps[..k + 1]) + EndpointsOf(number, eps[k + 1..]);
        FirstSelectedAppend(EndpointsOf(number, eps[..k + 1]), EndpointsOf(number, eps[k + 1..]));
        return Some(c);
      }
    }
    assert eps[..|eps|] == eps;
    return None;
  }

  // ---- Lemmas ----

  /** The first selected candidate of a concatenation is that of the first part, if it
      has one, and otherwise that of the second. */
  lemma {:induction false} FirstSelectedAppend(a: seq<Candidate>, b: seq<Candidate>)
    ensures FirstSelected(a + b) == if FirstSelected(a).Some? then FirstSelected(a) else FirstSelected(b)
    decreases |a|
  {
    if a == [] {
      assert a + b == b;
    } else {
      assert (a + b)[0] == a[0];
      assert (a + b)[1..] == a[1..] + b;
      FirstSelectedAppend(a[1..], b);
    }
  }

  /** Flattening the alternate settings distributes over concatenation. */
  lemma {:induction false} AltsFlatAppend(number: byte, a: seq<InterfaceDescriptor>, b: seq<InterfaceDescriptor>)
    ensures AltsFlat(number, a + b) == AltsFlat(number, a) + AltsFlat(number, b)
    decreases |b|
  {
    if b == [] {
      assert a + b == a;
    } else {
      var b' := b[..|b| - 1];
      assert (a + b)[..|a + b| - 1] == a + b';
      assert (a + b)[|a + b| - 1] == b[|b| - 1];
      AltsFlatAppend(number, a, b');
      var last := EndpointsOf(number, b[|b| - 1].endpoints);
      assert AltsFlat(number, a) + AltsFlat(number, b') + last == AltsFlat(number, a) + (AltsFlat(number, b') + last);
    }
  }

  /** Flattening the interfaces distributes over concatenation. */
  lemma {:induction false} FlattenAppend(a: seq<Interface>, b: seq<Interface>)
    ensures Flatten(a + b) == Flatten(a) + Flatten(b)
    decreases |b|
  {
    if b == [] {
      assert a + b == a;
    } else {
      var b' := b[..|b| - 1];
      assert (a + b)[..|a + b| - 1] == a + b';
      assert (a + b)[|a + b| - 1] == b[|b| - 1];
      FlattenAppend(a, b');
      var last := AltsFlat(b[|b| - 1].number, b[|b| - 1].descriptors);
      assert Flatten(a) + Flatten(b') + last == Flatten(a) + (Flatten(b') + last);
    }
  }

  /** `FirstSelected` finds the earliest selected candidate, and none exactly when no
      candidate is selected. */
  lemma {:induction false} FirstSelectedSpec(cs: seq<Candidate>)
    ensures FirstSelected(cs).None? <==> forall n :: 0 <= n < |cs| ==> !Selected(cs[n])
    ensures FirstSelected(cs).Some? ==> exists n :: (0 <= n < |cs| && cs[n] == FirstSelected(cs).value
      && Selected(cs[n]) && forall m :: 0 <= m < n ==> !Selected(cs[m]))
    decreases |cs|
  {
    if cs != [] && !Selected(cs[0]) {
      FirstSelectedSpec(cs[1..]);
      assert forall n :: 1 <= n < |cs| ==> cs[n] == cs[1..][n - 1];
      if FirstSelected(cs).Some? {
        var n :| 0 <= n < |cs[1..]| && cs[1..][n] == FirstSelected(cs[1..]).value
          && Selected(cs[1..][n]) && forall m :: 0 <= m < n ==> !Selected(cs[1..][m]);
        assert cs[n + 1] == cs[1..][n];
      }
    } else if cs != [] {
      assert cs[0] == FirstSelected(cs).value;
    }
  }

  /** The endpoint chosen is an IN interrupt endpoint of the configuration, none earlier in
      the search order is one, and nothing is chosen exactly when there is no active
      configuration or no such endpoint. */
  lemma FindInterruptEndpointSpec(config: Option<ConfigDescriptor>)
    ensures FindInterruptEndpoint(config).None? <==>
      config.None? || forall n :: 0 <= n < |Flatten(config.value.interfaces)| ==> !Selected(Flatten(config.value.interfaces)[n])
    ensures FindInterruptEndpoint(config).Some? ==>
      var cs := Flatten(config.value.interfaces);
      exists n :: (0 <= n < |cs| && Selected(cs[n])
        && FindInterruptEndpoint(config).value == (cs[n].interface, cs[n].endpoint.address)
        && DirectionOf(cs[n].endpoint) == In && TransferTypeOf(cs[n].endpoint) == Interrupt
        && forall m :: 0 <= m < n ==> !Selected(cs[m]))
  {
    if config.Some? {
      FirstSelectedSpec(Flatten(config.value.interfaces));
    }
  }

  /** A single interface with a single alternate setting: an OUT interrupt endpoint is
      passed over for the IN interrupt endpoint after it, and a bulk IN endpoint is never
      chosen. */
  lemma FindInterruptEndpointExample()
    ensures FindInterruptEndpoint(Some(ConfigDescriptor([Interface(0, [InterfaceDescriptor([
      EndpointDescriptor(0x01, 0x03), EndpointDescriptor(0x82, 0x02), EndpointDescriptor(0x81, 0x03)])])])))
      == Some((0, 0x81))
  {
    var eps := [EndpointDescriptor(0x01, 0x03), EndpointDescriptor(0x82, 0x02), EndpointDescriptor(0x81, 0x03)];
    var alts := [InterfaceDescriptor(eps)];
    var ifaces := [Interface(0, alts)];
    assert ifaces[..0] == [] && alts[..0] == [];
    assert AltsFlat(0, alts) == AltsFlat(0, []) + EndpointsOf(0, eps);
    assert Flatten(ifaces) == Flatten([]) + AltsFlat(0, alts);
    var cs := EndpointsOf(0, eps);
    assert !Selected(cs[0]) && !Selected(cs[1]) && Selected(cs[2]);
    assert cs[1..][1..][0] == cs[2];
  }
}
