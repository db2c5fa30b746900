/** Shared value types of the bridge: fixed-width integers, optional and fallible results,
    and the (vendor, product) identifier every device lookup is keyed by. */
module Common {

  /** Rust `u8`. */
  type byte = x: int | 0 <= x < 0x100

  /** Rust `u16`. */
  type u16 = x: int | 0 <= x < 0x1_0000

  datatype Option<T> = None | Some(value: T)

  datatype Result<T, E> = Ok(value: T) | Err(error: E)

  /** The `(vendor_id, product_id)` pair used as a key in the readers maps and in every
      registry lookup. */
  datatype DeviceId = DeviceId(vendorId: u16, productId: u16)

  /** The sequence has no repeated element. */
  predicate Distinct<T(==)>(s: seq<T>)
  {
    forall i, j :: 0 <= i < j < |s| ==> s[i] != s[j]
  }
}
