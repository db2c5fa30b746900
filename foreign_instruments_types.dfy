/** The shared record types: the lifecycle state of a tracked device, the tracked device
    itself, and the choice of access backend made from a device's details. */
module ForeignInstrumentsTypes {
  import opened Common

  /** Lifecycle state of a tracked device. Equality is structural: two `Error` states are
      equal only when their messages are. */
  datatype DeviceState = Active | Disconnected | Error(message: string)

  datatype ManagedDevice = ManagedDevice(name: string, vendorId: u16, productId: u16, state: DeviceState)

  function IdOf(d: ManagedDevice): DeviceId
  {
    DeviceId(d.vendorId, d.productId)
  }

  /** The libusb details a device description carries. Their contents play no part in
      choosing the backend. */
  datatype LibUsbEndpointDetails = LibUsbEndpointDetails(address: byte, directionIn: bool)
  datatype LibUsbInterfaceDetails = LibUsbInterfaceDetails(number: byte, isHid: bool, endpoints: seq<LibUsbEndpointDetails>)
  datatype LibUsbDeviceDetails = LibUsbDeviceDetails(vendorId: u16, productId: u16, interfaces: seq<LibUsbInterfaceDetails>)

  datatype BackendAccessorDeviceDetails =
    | BackendLibUsbDeviceDetails(details: LibUsbDeviceDetails)
    | BackendDummyDeviceDetails

  /** The libusb backend is a stateless marker. */
  datatype BackendLibUsb = BackendLibUsb

  datatype BackendAccessor = AccessorLibUsb(backend: BackendLibUsb) | AccessorDummy

  /** `BackendAccessor::new`: libusb details select the libusb backend, dummy details the
      dummy one. */
  function NewBackendAccessor(details: BackendAccessorDeviceDetails): (a: BackendAccessor)
    ensures a.AccessorLibUsb? <==> details.BackendLibUsbDeviceDetails?
    ensures a.AccessorDummy? <==> details.BackendDummyDeviceDetails?
  {
    match details
    case BackendLibUsbDeviceDetails(_) => AccessorLibUsb(BackendLibUsb)
    case BackendDummyDeviceDetails => AccessorDummy
  }

  /** `get_discriminant`: the variant of an accessor, numbered in declaration order. */
  function Discriminant(a: BackendAccessor): (k: nat)
    ensures k < 2
    ensures k == 0 <==> a.AccessorLibUsb?
  {
    match a
    case AccessorLibUsb(_) => 0
    case AccessorDummy => 1
  }

  /** Two accessors have the same discriminant exactly when they are the same variant. */
  lemma DiscriminantIffSameVariant(a: BackendAccessor, b: BackendAccessor)
    ensures Discriminant(a) == Discriminant(b) <==> (a.AccessorLibUsb? <==> b.AccessorLibUsb?)
  {
  }

  /** The contents of libusb details never influence the accessor built from them. */
  lemma NewIgnoresLibUsbDetails(d1: LibUsbDeviceDetails, d2: LibUsbDeviceDetails)
    ensures NewBackendAccessor(BackendLibUsbDeviceDetails(d1)) == NewBackendAccessor(BackendLibUsbDeviceDetails(d2))
  {
  }

  /** Structural equality of states: errors are equal only with equal messages. */
  lemma ErrorStatesEqualIffMessagesEqual(m1: string, m2: string)
    ensures Error(m1) == Error(m2) <==> m1 == m2
    ensures Error(m1) != Active && Error(m1) != Disconnected
  {
  }
}
