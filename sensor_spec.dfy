/**
 * The coolant sensor of the Lian Li GA II plugin as a pure state machine.
 * A `Sensor` value is the sensor object's state; each function below is one
 * of its C# methods, applied to the state before the call and giving the
 * state after it.
 */
module SensorSpec {

  import opened Wrappers
  import opened Hid

  const TEMPERATURE_BYTE_INDEX: nat := 11
  const READ_TIMEOUT_MS: int := 250
  const UPDATE_INTERVAL_MS: int := 0
  /** DateTime.MinValue on a clock counting milliseconds from that instant. */
  const MIN_TIME: nat := 0

  /** The report buffer the sensor owns: always one full report long. */
  type Report = b: seq<byte> | |b| == REPORT_LENGTH witness seq(REPORT_LENGTH, _ => 0)

  /**
   * The sensor's fields, and the handles it has disposed so far (the only
   * trace a closed stream leaves).
   */
  datatype Sensor = Sensor(
    device: Option<HidDevice>,
    stream: Option<HidStream>,
    buffer: Report,
    lastUpdate: nat,
    value: Option<int>,
    disposed: seq<nat>)

  /** One call of Update by the host: the clock reading and what the library does. */
  datatype Call = Call(now: nat, env: Env)

  /** The state right after the fields' initialisers run, before the constructor body. */
  function Initial(): (s: Sensor)
    ensures s.device.None? && s.stream.None? && s.value.None? && s.disposed == []
    ensures s.lastUpdate == MIN_TIME
    ensures forall i :: 0 <= i < REPORT_LENGTH ==> s.buffer[i] == 0
  {
    Sensor(None, None, seq(REPORT_LENGTH, _ => 0), MIN_TIME, None, [])
  }

  /** A known reading is one byte. */
  predicate ValueInRange(s: Sensor) {
    s.value.Some? ==> 0 <= s.value.value < 256
  }

  /** Every open stream has had its read timeout set. */
  predicate StreamConfigured(s: Sensor) {
    s.stream.Some? ==> s.stream.value.readTimeoutMs == READ_TIMEOUT_MS
  }

  /** The temperature byte a read delivers, if it delivered one. */
  function Byte11(read: ReadOutcome): (t: Option<int>)
    ensures t.Some? ==> 0 <= t.value < 256
  {
    if read.Bytes? && |read.data| > TEMPERATURE_BYTE_INDEX
    then Some(read.data[TEMPERATURE_BYTE_INDEX] as int)
    else None
  }

  /** CloseDevice: dispose the stream if there is one, then forget it. */
  function CloseDevice(s: Sensor): (r: Sensor)
    ensures r.stream.None?
    ensures r.disposed == s.disposed + Handles(s.stream)
    ensures r.device == s.device && r.buffer == s.buffer
    ensures r.lastUpdate == s.lastUpdate && r.value == s.value
  {
    s.(stream := None, disposed := s.disposed + Handles(s.stream))
  }

  /** Close: the sensor's public teardown. */
  function Close(s: Sensor): (r: Sensor)
    ensures r == CloseDevice(s)
    ensures r.stream.None? && r.value == s.value
  {
    CloseDevice(s)
  }

  /**
   * InitializeDevice: close, look the device up, open it and set the read
   * timeout. Every exception is caught and closes the stream again; an
   * exception from the lookup leaves the remembered device as it was.
   */
  function InitializeDevice(s: Sensor, lookup: Lookup, open: OpenOutcome): (r: Sensor)
    ensures r.stream.Some? <==> lookup.Found? && open.Opened?
    ensures r.stream.Some? ==> r.stream == Some(HidStream(open.stream.handle, READ_TIMEOUT_MS))
    ensures r.device == match lookup
                        case Found(d) => Some(d)
                        case NotFound => None
                        case LookupFault => s.device
    ensures r.disposed == s.disposed + Handles(s.stream)
                          + (if lookup.Found? && open.ConfigureFault? then [open.stream.handle] else [])
    ensures r.value == s.value && r.buffer == s.buffer && r.lastUpdate == s.lastUpdate
  {
    var closed := CloseDevice(s);
    match lookup
    case LookupFault => CloseDevice(closed)
    case NotFound => closed.(device := None)
    case Found(d) =>
      var found := closed.(device := Some(d));
      match open
      case Opened(st) => found.(stream := Some(st.(readTimeoutMs := READ_TIMEOUT_MS)))
      case OpenFailed => found.(stream := None)
      case OpenFault => CloseDevice(found)
      case ConfigureFault(st) => CloseDevice(found.(stream := Some(st)))
  }

  /**
   * The bytes-received branch of Update: the read has written `data` to the
   * front of the buffer; a report longer than the temperature offset carries
   * a reading, which is stored when it differs from the one held.
   */
  function Receive(s: Sensor, data: Chunk): (r: Sensor)
    ensures r.buffer[..|data|] == data && r.buffer[|data|..] == s.buffer[|data|..]
    ensures r.value == if |data| > TEMPERATURE_BYTE_INDEX then Some(data[TEMPERATURE_BYTE_INDEX] as int) else s.value
    ensures r.stream == s.stream && r.device == s.device
    ensures r.lastUpdate == s.lastUpdate && r.disposed == s.disposed
  {
    var filled := s.(buffer := data + s.buffer[|data|..]);
    if |data| > 0 && |data| > TEMPERATURE_BYTE_INDEX then
      var temp := filled.buffer[TEMPERATURE_BYTE_INDEX] as int;
      if s.value.None? || temp != s.value.value then filled.(value := Some(temp)) else filled
    else
      filled
  }

  /**
   * The try block of Update: one read on the open stream. A timeout is
   * swallowed, any other failure closes the stream; the reading survives both.
   */
  function ReadReport(s: Sensor, read: ReadOutcome): (r: Sensor)
    ensures r.value == (if Byte11(read).Some? then Byte11(read) else s.value)
    ensures read.ReadFault? ==> r == CloseDevice(s)
    ensures !read.ReadFault? ==> r.stream == s.stream && r.disposed == s.disposed
    ensures read.ReadTimeout? || read == Bytes([]) ==> r == s
    ensures r.device == s.device && r.lastUpdate == s.lastUpdate
  {
    match read
    case Bytes(data) =>
      assert data == [] ==> data + s.buffer[|data|..] == s.buffer;
      Receive(s, data)
    case ReadTimeout => s
    case ReadFault => CloseDevice(s)
  }

  /** The throttle: too little time since the last call that got past it. */
  predicate Throttled(s: Sensor, now: nat) {
    now - s.lastUpdate < UPDATE_INTERVAL_MS
  }

  /** The call must reconnect before reading. */
  predicate NeedsReinit(s: Sensor, env: Env) {
    s.stream.None? || !env.canRead
  }

  /** The call gets as far as the read. */
  predicate ReachesRead(s: Sensor, now: nat, env: Env) {
    !Throttled(s, now) && (NeedsReinit(s, env) ==> env.lookup.Found? && env.open.Opened?)
  }

  /** The call runs the Value setter. */
  predicate AssignsValue(s: Sensor, now: nat, env: Env) {
    ReachesRead(s, now, env) && Byte11(env.read).Some? && Byte11(env.read) != s.value
  }

  /** Update: one host poll. */
  function Update(s: Sensor, now: nat, env: Env): (r: Sensor)
    ensures Throttled(s, now) ==> r == s
    ensures !Throttled(s, now) ==> r.lastUpdate == now
    ensures r.value == s.value || (ReachesRead(s, now, env) && r.value == Byte11(env.read))
    ensures ValueInRange(s) ==> ValueInRange(r)
    ensures StreamConfigured(s) ==> StreamConfigured(r)
    ensures |s.disposed| <= |r.disposed| && r.disposed[..|s.disposed|] == s.disposed
    ensures s.stream.Some? && r.stream != s.stream ==>
              |r.disposed| > |s.disposed| && r.disposed[|s.disposed|] == s.stream.value.handle
  {
    if Throttled(s, now) then s
    else
      var stamped := s.(lastUpdate := now);
      var ready := if NeedsReinit(s, env) then InitializeDevice(stamped, env.lookup, env.open) else stamped;
      if ready.stream.None? then ready else ReadReport(ready, env.read)
  }

  /** A sequence of host polls, in order. */
  function Run(s: Sensor, calls: seq<Call>): (r: Sensor)
    ensures ValueInRange(s) ==> ValueInRange(r)
    ensures StreamConfigured(s) ==> StreamConfigured(r)
    ensures s.value.Some? ==> r.value.Some?
    ensures |s.disposed| <= |r.disposed| && r.disposed[..|s.disposed|] == s.disposed
    decreases |calls|
  {
    if calls == [] then s
    else Run(Update(s, calls[0].now, calls[0].env), calls[1..])
  }
}
