# Lian Li GA II coolant sensor, modelled in Dafny

The FanControl plugin for the Lian Li Galahad II LCD cooler exposes one
temperature sensor, `CoolantSensor`. The host calls its `Update` on every poll.
Each call does one step of a small state machine:

1. It applies a time throttle.
2. It reconnects when the HID stream is missing or cannot be read.
3. It does one blocking read of a 64-byte report.
4. It decodes byte 11 as the coolant temperature and stores that value in `Value` when it differs from the value held.

A read timeout is swallowed. Any other read failure closes the stream and keeps the last reading.

The files:

- `wrappers.dfy` (`Wrappers`): the `Option` type used for nullable fields.
- `hid.dfy` (`Hid`): the HID library (HidSharp) as outcomes only. The device lookup, by vendor 0x0416 and product 0x7395, gives `Found`, `NotFound` or `LookupFault`. `TryOpen` gives `Opened`, `OpenFailed`, `OpenFault` or `ConfigureFault`. The last one means the read-timeout setter threw after a successful open. A read gives `Bytes(data)`, `ReadTimeout` or `ReadFault`. `CanRead` is a boolean. Each `Update` call receives all of them in one `Env`.
- `sensor_spec.dfy` (`SensorSpec`): the sensor's fields as a `Sensor` value, with one function per C# method (`InitializeDevice`, `CloseDevice`, `Close`, `Update`, the try block `ReadReport` and its bytes branch `Receive`). `Run` folds `Update` over a sequence of host calls.
- `sensor_properties.dfy` (`SensorProperties`): lemmas for each branch of `Update`, plus properties of whole runs.
- `lian_li_gaii.dfy` (`LianLiGAII`): the classes `CoolantSensor` and `LianLiGAIIPlugin`. Their fields are updated in place, and the report buffer is a 64-element `array<byte>` that `Read` fills. Each method is proved to move `Model()` exactly as the matching `SensorSpec` function does. `SensorsContainer` is not a class of this file: it stands for the host's `IPluginSensorsContainer`, whose temperature-sensor list `Load` adds the sensor to. The ghost field `Disposed` logs disposed stream handles. The ghost field `ValueWrites` counts calls of the `Value` setter.

Time is an injected natural-number clock in milliseconds, counted from `DateTime.MinValue`, so no reading lies before it.

Where the system's specification and the code differ, the model follows the code:

- The specification gives the sensor a background poll loop with heartbeat and query commands, a 2000 ms backoff, and a reading that becomes absent on disconnect. This version of the code has none of these. `Update` is driven synchronously by the host. It never sleeps or backs off. On a fault it keeps the previous reading (LianLiGAIIPlugin.cs:160-164).
- The throttle interval is 0 (LianLiGAIIPlugin.cs:50). The throttle therefore skips a call only when the clock has gone back past the last stamp.

## Model

| member | source | states |
|---|---|---|
| SensorSpec.Initial | LianLiGAIIPlugin.cs:53-61 | Before the constructor body runs, there is no device, no stream and no reading, the buffer is 64 zero bytes, and the stamp is DateTime.MinValue |
| SensorSpec.CloseDevice | LianLiGAIIPlugin.cs:167-173 | Afterwards there is no stream. The disposed log grows by the handle of the stream held before, and only if one was held. Nothing else changes |
| SensorSpec.Close | LianLiGAIIPlugin.cs:175-178 | Close is exactly CloseDevice: no stream afterwards, reading kept |
| SensorSpec.InitializeDevice | LianLiGAIIPlugin.cs:69-100 | The old stream is disposed first. The result has a stream exactly when the device was found and TryOpen succeeded, and that stream has a 250 ms read timeout. The device field follows the lookup, and stays as it was when the lookup threw. A stream whose timeout setter threw is disposed. Reading, buffer and stamp are unchanged |
| SensorSpec.Receive | LianLiGAIIPlugin.cs:126-148 | The received bytes are at the front of the buffer and the rest of the buffer is as it was. The reading becomes byte 11 when more than 11 bytes arrived, and is kept otherwise |
| SensorSpec.ReadReport | LianLiGAIIPlugin.cs:121-164 | The reading afterwards is the report's byte 11 if it carried one, else the old reading. A fault is CloseDevice. A timeout or an empty read changes nothing. Any other outcome keeps the stream |
| SensorSpec.Update | LianLiGAIIPlugin.cs:102-165 | A throttled call changes nothing. A call that passes the throttle stamps the time. The reading only changes to byte 11 of a report the call actually read. The byte range and the configured timeout are preserved. The disposed log only grows. A stream that the call drops is the first handle the call disposes |
| SensorSpec.Run | LianLiGAIIPlugin.cs:102-165 | Over any sequence of host polls, the byte range and the configured timeout are preserved, a known reading never becomes unknown again, and the disposed log only grows |
| SensorProperties.CloseDeviceIdempotent | LianLiGAIIPlugin.cs:167-178 | Closing twice equals closing once, including the disposed log, and Close equals CloseDevice |
| SensorProperties.MonotoneClockNeverThrottles | LianLiGAIIPlugin.cs:50-56 | With interval 0, a clock at or past the last stamp is never throttled, and the call stamps the time |
| SensorProperties.ReinitFailureSkipsRead | LianLiGAIIPlugin.cs:110-118 | When the reconnect ends without a stream, the call ends after it: no read, buffer and reading unchanged |
| SensorProperties.ShortReportKeepsValue | LianLiGAIIPlugin.cs:128-138 | A report of at most 11 bytes is copied into the buffer and the reading is unchanged. Without a reconnect, the stream, device and disposed log are unchanged. After a reconnect, the stream is the one just opened with the 250 ms timeout, the device is the one found, and the only handle disposed is the old stream's |
| SensorProperties.ReportSetsValue | LianLiGAIIPlugin.cs:132-146 | After a report of 12 or more bytes, the reading and buffer byte 11 are the report's byte 11. Without a reconnect, the stream, device and disposed log are unchanged. After a reconnect, the stream is the one just opened with the 250 ms timeout, the device is the one found, and the only handle disposed is the old stream's |
| SensorProperties.ValueAssignedIffChanged | LianLiGAIIPlugin.cs:138-146 | The Value setter runs exactly when the call changes the reading |
| SensorProperties.IdenticalReportAssignedOnce | LianLiGAIIPlugin.cs:138-146 | Two reports with the same byte 11 leave that byte as the reading. The setter runs on the first call only if the reading differed, and never on the second |
| SensorProperties.QuietReadChangesNothing | LianLiGAIIPlugin.cs:149-159 | A timeout or a zero-byte read leaves the state exactly as the throttle and reconnect steps left it |
| SensorProperties.ReadFaultClosesStream | LianLiGAIIPlugin.cs:160-164 | Any other read failure leaves no stream and keeps the reading and the buffer. Without a reconnect, the disposed handle is the one that was read |
| SensorProperties.RunReadingProvenance | LianLiGAIIPlugin.cs:61-61 | After any run, the reading is the one held before, or byte 11 of a report that some call of the run actually read, that call having passed the throttle and the reconnect |
| SensorProperties.RunMonotoneClockStampsLastCall | LianLiGAIIPlugin.cs:104-108 | Under a clock that never goes back, every call of a run passes the throttle in the state the earlier calls left, and the stamp after the run is the last call's time |
| SensorProperties.ReachableStatesKeepInvariants | LianLiGAIIPlugin.cs:61-81 | From construction on, whatever the library does, a reading is in 0..255 and every open stream has the 250 ms timeout |
| LianLiGAII.CoolantSensor.Value | LianLiGAIIPlugin.cs:61-61 | The Value property is null or a value in 0..255 |
| LianLiGAII.CoolantSensor.constructor | LianLiGAIIPlugin.cs:63-67 | Runs InitializeDevice on the initial state. A fresh 64-byte buffer. No setter call yet |
| LianLiGAII.CoolantSensor.CloseDevice | LianLiGAIIPlugin.cs:167-173 | The object's state moves as SensorSpec.CloseDevice |
| LianLiGAII.CoolantSensor.InitializeDevice | LianLiGAIIPlugin.cs:69-100 | The object's state moves as SensorSpec.InitializeDevice. The setter is not called |
| LianLiGAII.CoolantSensor.Update | LianLiGAIIPlugin.cs:102-119 | The object's state moves as SensorSpec.Update. The setter is called once exactly when SensorSpec.AssignsValue holds |
| LianLiGAII.CoolantSensor.ReadReport | LianLiGAIIPlugin.cs:121-164 | The read fills the array in place, and the state moves as SensorSpec.ReadReport. The setter is called once exactly when the report's byte 11 differs from the value held |
| LianLiGAII.CoolantSensor.Close | LianLiGAIIPlugin.cs:175-178 | The object's state moves as SensorSpec.Close |
| LianLiGAII.LianLiGAIIPlugin.constructor | LianLiGAIIPlugin.cs:17-21 | No sensor before Load |
| LianLiGAII.LianLiGAIIPlugin.Load | LianLiGAIIPlugin.cs:28-33 | Creates a fresh sensor in its initialised state and appends it to the container's temperature sensors |
| LianLiGAII.LianLiGAIIPlugin.Close | LianLiGAIIPlugin.cs:35-39 | Closes the sensor if there is one |

## Left out

- Logging, and the hex dump of the buffer (LianLiGAIIPlugin.cs:74, 78, 82, 87, 92, 97, 112, 116, 130-136, 144, 162, 172). They are diagnostic text with no effect on state.
- HidSharp itself (device enumeration, `TryOpen`, `Read`, `Dispose`, `CanRead`). These are foreign calls, modelled only by their outcomes. A read is assumed to deliver at most one report's length. A failing read is assumed to leave the buffer untouched. An exception from `Dispose` is swallowed by the source, so disposing is modelled as always logging the handle.
- `TryOpen` throwing after it has already set its out parameter. This is modelled as leaving no stream, which is the state the catch block leaves in any case.
- LianLiGAII.CoolantSensor.Update: takes one clock reading per call. The source reads `DateTime.UtcNow` twice (LianLiGAIIPlugin.cs:104 and 108), and the model uses the same value for the throttle test and the stamp.
- `Value` as a `float?`. It only ever holds one byte, so it is modelled as an optional integer and compared with integer equality.
- The plugin's `Name`, the logger, and the host's `Initialize` hook. These are host glue with no state.
- The sensor's `Id` and `Name` properties. They are constant strings with no behaviour.
- The background poll loop, the heartbeat and query commands, the command encoder, the write-only command channel and the JSON configuration from the specification. None of them exist in LianLiGAIIPlugin.cs. The only command write is commented out at line 124.
