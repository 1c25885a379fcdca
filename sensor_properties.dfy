/**
 * What the coolant sensor's state machine promises: the outcome of each
 * branch of one Update call, and what holds over any sequence of calls.
 */
module SensorProperties {

  import opened Wrappers
  import opened Hid
  import opened SensorSpec

  /** Closing twice is closing once: the second close finds no stream to dispose. */
  lemma CloseDeviceIdempotent(s: Sensor)
    ensures CloseDevice(CloseDevice(s)) == CloseDevice(s)
    ensures Close(s) == CloseDevice(s)
  {
  }

  /** The throttle interval is zero, so a clock that has not gone back never skips a call. */
  lemma MonotoneClockNeverThrottles(s: Sensor, now: nat, env: Env)
    requires s.lastUpdate <= now
    ensures !Throttled(s, now)
    ensures Update(s, now, env).lastUpdate == now
  {
  }

  /** A reconnect that ends without a stream ends the call: nothing is read and the reading stays. */
  lemma ReinitFailureSkipsRead(s: Sensor, now: nat, env: Env)
    requires !Throttled(s, now) && NeedsReinit(s, env)
    requires !(env.lookup.Found? && env.open.Opened?)
    ensures var r := Update(s, now, env);
      r.stream.None? && r.value == s.value && r.buffer == s.buffer
      && r == InitializeDevice(s.(lastUpdate := now), env.lookup, env.open)
  {
  }

  /** A report no longer than the temperature offset fills the buffer but leaves the reading alone. */
  lemma ShortReportKeepsValue(s: Sensor, now: nat, env: Env)
    requires ReachesRead(s, now, env)
    requires env.read.Bytes? && |env.read.data| <= TEMPERATURE_BYTE_INDEX
    ensures var r := Update(s, now, env);
      r.value == s.value && r.stream.Some? && r.buffer[..|env.read.data|] == env.read.data
    ensures var r := Update(s, now, env);
      !NeedsReinit(s, env) ==> r.stream == s.stream && r.device == s.device && r.disposed == s.disposed
    ensures var r := Update(s, now, env);
      NeedsReinit(s, env) ==>
        r.stream == Some(HidStream(env.open.stream.handle, READ_TIMEOUT_MS))
        && r.device == Some(env.lookup.device) && r.disposed == s.disposed + Handles(s.stream)
  {
  }

  /** A report longer than the temperature offset leaves its byte 11 as the reading. */
  lemma ReportSetsValue(s: Sensor, now: nat, env: Env)
    requires ReachesRead(s, now, env)
    requires env.read.Bytes? && |env.read.data| > TEMPERATURE_BYTE_INDEX
    ensures var r := Update(s, now, env);
      r.value == Some(env.read.data[TEMPERATURE_BYTE_INDEX] as int) && r.stream.Some?
      && r.buffer[TEMPERATURE_BYTE_INDEX] == env.read.data[TEMPERATURE_BYTE_INDEX]
    ensures var r := Update(s, now, env);
      !NeedsReinit(s, env) ==> r.stream == s.stream && r.device == s.device && r.disposed == s.disposed
    ensures var r := Update(s, now, env);
      NeedsReinit(s, env) ==>
        r.stream == Some(HidStream(env.open.stream.handle, READ_TIMEOUT_MS))
        && r.device == Some(env.lookup.device) && r.disposed == s.disposed + Handles(s.stream)
  {
  }

  /** The Value setter runs exactly when the call changes the reading. */
  lemma ValueAssignedIffChanged(s: Sensor, now: nat, env: Env)
    ensures AssignsValue(s, now, env) <==> Update(s, now, env).value != s.value
  {
  }

  /**
   * Two reports carrying the same temperature byte, one after the other: the
   * reading is that byte after both, and only the first can run the setter.
   */
  lemma IdenticalReportAssignedOnce(s: Sensor, first: Call, second: Call, b: int)
    requires ReachesRead(s, first.now, first.env) && Byte11(first.env.read) == Some(b)
    requires ReachesRead(Update(s, first.now, first.env), second.now, second.env)
    requires Byte11(second.env.read) == Some(b)
    ensures var s1 := Update(s, first.now, first.env);
      s1.value == Some(b) && Update(s1, second.now, second.env).value == Some(b)
      && (AssignsValue(s, first.now, first.env) <==> s.value != Some(b))
      && !AssignsValue(s1, second.now, second.env)
  {
  }

  /** A timeout or an empty read leaves the state as the reconnect check left it. */
  lemma QuietReadChangesNothing(s: Sensor, now: nat, env: Env)
    requires ReachesRead(s, now, env)
    requires env.read.ReadTimeout? || env.read == Bytes([])
    ensures Update(s, now, env) ==
      if NeedsReinit(s, env) then InitializeDevice(s.(lastUpdate := now), env.lookup, env.open)
      else s.(lastUpdate := now)
  {
  }

  /** Any other read failure closes the stream it read from and keeps the reading. */
  lemma ReadFaultClosesStream(s: Sensor, now: nat, env: Env)
    requires ReachesRead(s, now, env) && env.read.ReadFault?
    ensures var r := Update(s, now, env);
      r.stream.None? && r.value == s.value && r.buffer == s.buffer && r.device == (
        if NeedsReinit(s, env) then Some(env.lookup.device) else s.device)
    ensures !NeedsReinit(s, env) ==>
      Update(s, now, env).disposed == s.disposed + [s.stream.value.handle]
  {
  }

  /**
   * Whatever the reading is after a run, it was held before, or some call of
   * the run got as far as its read and that read delivered it as byte 11.
   */
  lemma {:induction false} RunReadingProvenance(s: Sensor, calls: seq<Call>)
    ensures var r := Run(s, calls);
      r.value == s.value
      || exists i :: 0 <= i < |calls|
           && ReachesRead(Run(s, calls[..i]), calls[i].now, calls[i].env)
           && Byte11(calls[i].env.read) == r.value
    decreases |calls|
  {
    if calls != [] {
      var s1 := Update(s, calls[0].now, calls[0].env);
      var r := Run(s, calls);
      assert r == Run(s1, calls[1..]);
      assert calls[..0] == [];
      RunReadingProvenance(s1, calls[1..]);
      if r.value != s1.value {
        var j :| 0 <= j < |calls[1..]|
                 && ReachesRead(Run(s1, calls[1..][..j]), calls[1..][j].now, calls[1..][j].env)
                 && Byte11(calls[1..][j].env.read) == r.value;
        assert calls[1..][j] == calls[j + 1];
        RunPrefixUnfold(s, calls, j + 1);
      } else if r.value != s.value {
        assert ReachesRead(Run(s, calls[..0]), calls[0].now, calls[0].env);
        assert Byte11(calls[0].env.read) == r.value;
      }
    }
  }

  /** The clock never goes back across the calls, starting from the last stamp. */
  predicate MonotoneFrom(start: int, calls: seq<Call>) {
    (forall i :: 0 <= i < |calls| ==> start <= calls[i].now)
    && (forall i, j :: 0 <= i < j < |calls| ==> calls[i].now <= calls[j].now)
  }

  /** Dropping the first call keeps the clock monotone, from that call's time on. */
  lemma MonotoneTail(start: int, calls: seq<Call>)
    requires |calls| > 1 && MonotoneFrom(start, calls)
    ensures MonotoneFrom(calls[0].now, calls[1..])
  {
    forall i | 0 <= i < |calls[1..]| ensures calls[0].now <= calls[1..][i].now {
      assert calls[1..][i] == calls[i + 1];
    }
    forall i, j | 0 <= i < j < |calls[1..]| ensures calls[1..][i].now <= calls[1..][j].now {
      assert calls[1..][i] == calls[i + 1] && calls[1..][j] == calls[j + 1];
    }
  }

  /** Running a non-empty prefix is the first call followed by the rest of the prefix. */
  lemma RunPrefixUnfold(s: Sensor, calls: seq<Call>, i: nat)
    requires 0 < i <= |calls|
    ensures Run(s, calls[..i]) == Run(Update(s, calls[0].now, calls[0].env), calls[1..][..i - 1])
  {
    var prefix := calls[..i];
    assert prefix[0] == calls[0] && prefix[1..] == calls[1..][..i - 1];
  }

  /**
   * Under a clock that never goes back, every call of a run passes the
   * throttle, so the last one stamps the time.
   */
  lemma {:induction false} RunMonotoneClockStampsLastCall(s: Sensor, calls: seq<Call>)
    requires calls != [] && MonotoneFrom(s.lastUpdate, calls)
    ensures forall i :: 0 <= i < |calls| ==> !Throttled(Run(s, calls[..i]), calls[i].now)
    ensures Run(s, calls).lastUpdate == calls[|calls| - 1].now
    decreases |calls|
  {
    var s1 := Update(s, calls[0].now, calls[0].env);
    MonotoneClockNeverThrottles(s, calls[0].now, calls[0].env);
    assert Run(s, calls) == Run(s1, calls[1..]);
    assert calls[..0] == [];
    if |calls| > 1 {
      MonotoneTail(s.lastUpdate, calls);
      RunMonotoneClockStampsLastCall(s1, calls[1..]);
      forall i | 0 < i < |calls| ensures !Throttled(Run(s, calls[..i]), calls[i].now) {
        RunPrefixUnfold(s, calls, i);
        assert calls[1..][i - 1] == calls[i];
      }
    }
  }

  /**
   * From construction on, whatever the library does: a known reading is one
   * byte and an open stream has its timeout set.
   */
  lemma ReachableStatesKeepInvariants(lookup: Lookup, open: OpenOutcome, calls: seq<Call>)
    ensures var r := Run(InitializeDevice(Initial(), lookup, open), calls);
      ValueInRange(r) && StreamConfigured(r)
  {
  }
}
