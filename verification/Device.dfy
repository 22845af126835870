/**
 * Device identity: the DeviceTriplet key and its construction from what the USB
 * enumeration reports about a device.
 */
module Device {
  import opened Outcomes
  import opened GoText
  import Base64

  /** DeviceTriplet: vendor ID, product ID and the Base64 text of the serial number. */
  datatype Triplet = Triplet(vendorId: uint16, productId: uint16, b64Serial: string)

  /**
   * What the enumeration reports about one attached device: the identifying fields,
   * the raw serial as bytes, and two display-only strings.
   */
  datatype DeviceInfo = DeviceInfo(
    vendorId: uint16,
    productId: uint16,
    serial: seq<Base64.byte>,
    manufacturer: string,
    product: string)

  /**
   * ToDeviceTriplet keeps the vendor and product IDs and encodes the serial with standard
   * Base64; the serial can be recovered from the triplet, and the triplet text never holds
   * the separators of the trust list.
   */
  function ToDeviceTriplet(d: DeviceInfo): (t: Triplet)
    ensures t.vendorId == d.vendorId && t.productId == d.productId
    ensures Base64.Decode(t.b64Serial) == Some(d.serial)
    ensures forall c | c in t.b64Serial :: c != ':' && c != '\n'
  {
    Base64.RoundTrip(d.serial);
    Base64.EncodeAlphabet(d.serial);
    Triplet(d.vendorId, d.productId, Base64.Encode(d.serial))
  }

  /**
   * Two descriptors give the same identity exactly when vendor ID, product ID and serial
   * agree; manufacturer and product strings play no part.
   */
  lemma SameIdentity(a: DeviceInfo, b: DeviceInfo)
    ensures ToDeviceTriplet(a) == ToDeviceTriplet(b)
        <==> a.vendorId == b.vendorId && a.productId == b.productId && a.serial == b.serial
  {
    if ToDeviceTriplet(a) == ToDeviceTriplet(b) {
      Base64.Injective(a.serial, b.serial);
    }
  }
}
