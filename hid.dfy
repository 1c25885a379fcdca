/**
 * The HID access library the sensor talks to, reduced to the outcomes of its
 * calls. Enumeration, opening and reading are foreign code: each call of the
 * sensor receives the outcome the library produced as a parameter.
 */
module Hid {

  import opened Wrappers

  /** The cooler's vendor and product identifiers, the ones the sensor looks up. */
  const VENDOR_ID: int := 0x0416
  const PRODUCT_ID: int := 0x7395
  const REPORT_LENGTH: nat := 64

  /** One byte of a HID report. */
  newtype byte = x: int | 0 <= x < 256

  /** What one read can deliver: never more bytes than the buffer it fills. */
  type Chunk = d: seq<byte> | |d| <= REPORT_LENGTH

  /** A device found by vendor and product identifier. */
  datatype HidDevice = HidDevice(devicePath: string)

  /** An opened stream: the library's handle and the read timeout set on it. */
  datatype HidStream = HidStream(handle: nat, readTimeoutMs: int)

  /** Outcome of looking up the device with identifiers VENDOR_ID and PRODUCT_ID. */
  datatype Lookup =
    | Found(device: HidDevice)
    | NotFound
    | LookupFault   // the enumeration threw

  /** Outcome of opening the device that was found. */
  datatype OpenOutcome =
    | Opened(stream: HidStream)          // TryOpen returned true and the timeout was set
    | OpenFailed                         // TryOpen returned false
    | OpenFault                          // TryOpen threw
    | ConfigureFault(stream: HidStream)  // TryOpen returned true, setting the timeout threw

  /** Outcome of one blocking read into the report buffer. */
  datatype ReadOutcome =
    | Bytes(data: Chunk)   // the call returned |data| and wrote data to the front of the buffer
    | ReadTimeout          // a TimeoutException
    | ReadFault            // any other exception

  /** Everything the library says during one Update call. */
  datatype Env = Env(canRead: bool, lookup: Lookup, open: OpenOutcome, read: ReadOutcome)

  /** The handles an optional stream holds: none or one. */
  function Handles(stream: Option<HidStream>): seq<nat> {
    match stream
    case None => []
    case Some(st) => [st.handle]
  }
}
