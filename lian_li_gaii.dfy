/**
 * The plugin's classes, with the fields the C# code updates in place. Every
 * method is proved to move the object's state exactly as the matching
 * function of SensorSpec moves a Sensor value.
 */
module LianLiGAII {

  import opened Wrappers
  import opened Hid
  import Spec = SensorSpec

  /** The coolant temperature sensor: one HID stream, one report buffer, one reading. */
  class CoolantSensor {
    var device: Option<HidDevice>
    var stream: Option<HidStream>
    const buffer: array<byte>
    var lastUpdateTime: nat
    /** The backing field of the Value property. */
    var value: Option<int>

    /** The handles this sensor has disposed, oldest first. */
    ghost var Disposed: seq<nat>
    /** How many times the Value setter has run. */
    ghost var ValueWrites: nat

    ghost predicate Valid()
      reads this
    {
      buffer.Length == REPORT_LENGTH
      && (value.Some? ==> 0 <= value.value < 256)
      && (stream.Some? ==> stream.value.readTimeoutMs == Spec.READ_TIMEOUT_MS)
    }

    /** The object's state as a SensorSpec value. */
    ghost function Model(): (s: Spec.Sensor)
      reads this, buffer
      requires Valid()
      ensures Spec.ValueInRange(s) && Spec.StreamConfigured(s)
    {
      Spec.Sensor(device, stream, buffer[..], lastUpdateTime, value, Disposed)
    }

    /** The Value property: the last reading, or None before the first one. */
    function Value(): (v: Option<int>)
      reads this
      requires Valid()
      ensures v.Some? ==> 0 <= v.value < 256
    {
      value
    }

    /** Field initialisers, then InitializeDevice. */
    constructor (lookup: Lookup, open: OpenOutcome)
      ensures Valid() && fresh(buffer)
      ensures Model() == Spec.InitializeDevice(Spec.Initial(), lookup, open)
      ensures ValueWrites == 0
    {
      device := None;
      stream := None;
      buffer := new byte[REPORT_LENGTH](_ => 0);
      lastUpdateTime := Spec.MIN_TIME;
      value := None;
      Disposed := [];
      ValueWrites := 0;
      new;
      assert buffer[..] == Spec.Initial().buffer;
      InitializeDevice(lookup, open);
    }

    method CloseDevice()
      requires Valid()
      modifies this
      ensures Valid()
      ensures Model() == Spec.CloseDevice(old(Model()))
      ensures ValueWrites == old(ValueWrites)
    {
      if stream.Some? {
        Disposed := Disposed + [stream.value.handle];
      }
      stream := None;
    }

    method InitializeDevice(lookup: Lookup, open: OpenOutcome)
      requires Valid()
      modifies this
      ensures Valid()
      ensures Model() == Spec.InitializeDevice(old(Model()), lookup, open)
      ensures ValueWrites == old(ValueWrites)
    {
      CloseDevice();
      match lookup
      case LookupFault =>
        CloseDevice();
      case NotFound =>
        device := None;
      case Found(d) =>
        device := Some(d);
        match open
        case Opened(st) =>
          stream := Some(st.(readTimeoutMs := Spec.READ_TIMEOUT_MS));
        case OpenFailed =>
          stream := None;
        case OpenFault =>
          CloseDevice();
        case ConfigureFault(st) =>
          stream := Some(st);
          // Setting the read timeout threw: the catch block closes the stream
          // (CloseDevice's steps, written out because the stream is not yet configured).
          Disposed := Disposed + [stream.value.handle];
          stream := None;
    }

    method Update(now: nat, env: Env)
      requires Valid()
      modifies this, buffer
      ensures Valid()
      ensures Model() == Spec.Update(old(Model()), now, env)
      ensures ValueWrites == old(ValueWrites) + (if Spec.AssignsValue(old(Model()), now, env) then 1 else 0)
    {
      if now - lastUpdateTime < Spec.UPDATE_INTERVAL_MS {
        return;
      }
      lastUpdateTime := now;

      if stream.None? || !env.canRead {
        InitializeDevice(env.lookup, env.open);
        if stream.None? {
          return;
        }
      }

      ReadReport(env.read);
    }

    /** The try block of Update. */
    method ReadReport(read: ReadOutcome)
      requires Valid() && stream.Some?
      modifies this, buffer
      ensures Valid()
      ensures Model() == Spec.ReadReport(old(Model()), read)
      ensures ValueWrites == old(ValueWrites) + (if Spec.Byte11(read).Some? && Spec.Byte11(read) != old(value) then 1 else 0)
    {
      match read
      case Bytes(data) =>
        forall i | 0 <= i < |data| {
          buffer[i] := data[i];
        }
        assert buffer[..] == data + old(buffer[..])[|data|..];
        var bytesRead := |data|;
        if bytesRead > 0 {
          var tempAtIndex11: Option<int> :=
            if bytesRead > Spec.TEMPERATURE_BYTE_INDEX then Some(buffer[Spec.TEMPERATURE_BYTE_INDEX] as int) else None;
          if tempAtIndex11.Some? {
            if value.None? || tempAtIndex11.value != value.value {
              value := tempAtIndex11;
              ValueWrites := ValueWrites + 1;
            }
          }
        }
      case ReadTimeout =>
      case ReadFault =>
        CloseDevice();
    }

    method Close()
      requires Valid()
      modifies this
      ensures Valid()
      ensures Model() == Spec.Close(old(Model()))
      ensures ValueWrites == old(ValueWrites)
    {
      CloseDevice();
    }
  }

  /** The host's sensor list that Load registers the sensor in. */
  class SensorsContainer {
    var tempSensors: seq<CoolantSensor>

    constructor ()
      ensures tempSensors == []
    {
      tempSensors := [];
    }
  }

  /** The plugin object the host drives: it creates the sensor and closes it. */
  class LianLiGAIIPlugin {
    var coolantSensor: CoolantSensor?

    ghost predicate Valid()
      reads this, coolantSensor
    {
      coolantSensor != null ==> coolantSensor.Valid()
    }

    constructor ()
      ensures Valid() && coolantSensor == null
    {
      coolantSensor := null;
    }

    method Load(container: SensorsContainer, lookup: Lookup, open: OpenOutcome)
      modifies this, container
      ensures Valid() && coolantSensor != null && fresh(coolantSensor)
      ensures coolantSensor.Model() == Spec.InitializeDevice(Spec.Initial(), lookup, open)
      ensures container.tempSensors == old(container.tempSensors) + [coolantSensor]
    {
      coolantSensor := new CoolantSensor(lookup, open);
      container.tempSensors := container.tempSensors + [coolantSensor];
    }

    method Close()
      requires Valid()
      modifies coolantSensor
      ensures Valid()
      ensures coolantSensor != null ==> coolantSensor.Model() == Spec.Close(old(coolantSensor.Model()))
    {
      if coolantSensor != null {
        coolantSensor.Close();
      }
    }
  }
}
