/**
 * One wake period of the sensor node (temp_sensor_value_update in
 * main/main.c): read both probes, send a channel's reading only when it moved
 * more than 0.5 degrees from the value last sent on that channel, keep the
 * sent value in RTC memory, then arm a 30 s wake timer and enter deep sleep.
 */
module ReportCycle {
  import opened EspErr
  import opened TemperatureScaling
  import opened Ds18b20Sensor

  /** The delta a reading must exceed, in degrees Celsius. */
  const DeltaThreshold: real := 0.5
  /** HA_ESP_SENSOR_ENDPOINT: channel 1 reports here, channel 2 on the next endpoint. */
  const HaEspSensorEndpoint: nat := 10
  /** The deep-sleep wake timer, in microseconds. */
  const SleepDurationUs: nat := 30_000_000

  /** The outcome of one read: its return code and the value of the output variable. */
  datatype Reading = Reading(err: int, celsius: real)

  /** What the cycle asks of the Zigbee stack and of the power controller, in order. */
  datatype Action =
    | SetMeasuredValue(endpoint: nat, value: int)
    | EnableTimerWakeup(durationUs: nat)
    | DeepSleepStart

  function Abs(x: real): (a: real) {
    if x < 0.0 then -x else x
  }

  /** A channel reports when its read succeeded and moved more than the threshold away from the last sent value. */
  predicate Reports(last: real, r: Reading) {
    r.err == EspOk && Abs(r.celsius - last) > DeltaThreshold
  }

  /** The retained value of a channel after it has seen `r`. */
  function Retain(last: real, r: Reading): (next: real) {
    if Reports(last, r) then r.celsius else last
  }

  /** The attribute write a channel issues on `endpoint`, if any. */
  function ChannelWrites(endpoint: nat, last: real, r: Reading): (writes: seq<Action>) {
    if Reports(last, r) then [SetMeasuredValue(endpoint, ToS16(r.celsius))] else []
  }

  /** Every action of one cycle, from the two retained values and the two readings. */
  function CycleActions(last1: real, last2: real, r1: Reading, r2: Reading): (actions: seq<Action>) {
    ChannelWrites(HaEspSensorEndpoint, last1, r1) +
    ChannelWrites(HaEspSensorEndpoint + 1, last2, r2) +
    [EnableTimerWakeup(SleepDurationUs), DeepSleepStart]
  }

  /** What a read of probe `index` yields when the bank holds `found`; the output variable starts at 0.0. */
  function SensorReading(found: seq<OneWireDevice>, index: int, probe: OneWireDevice -> real): (r: Reading) {
    if 0 <= index < |found| then Reading(EspOk, probe(found[index])) else Reading(EspErrInvalidArg, 0.0)
  }

  /** The MeasuredValues written to `endpoint`, in order. */
  function WritesTo(actions: seq<Action>, endpoint: nat): (values: seq<int>) {
    if actions == [] then []
    else
      (if actions[0].SetMeasuredValue? && actions[0].endpoint == endpoint then [actions[0].value] else []) +
      WritesTo(actions[1..], endpoint)
  }

  /** How many times a cycle arms the wake timer. */
  function WakeupCount(actions: seq<Action>): (n: nat) {
    if actions == [] then 0
    else (if actions[0].EnableTimerWakeup? then 1 else 0) + WakeupCount(actions[1..])
  }

  /** How many times a cycle enters deep sleep. */
  function SleepCount(actions: seq<Action>): (n: nat) {
    if actions == [] then 0
    else (if actions[0].DeepSleepStart? then 1 else 0) + SleepCount(actions[1..])
  }

  lemma {:induction false} WritesToAppend(a: seq<Action>, b: seq<Action>, endpoint: nat)
    ensures WritesTo(a + b, endpoint) == WritesTo(a, endpoint) + WritesTo(b, endpoint)
  {
    if a != [] {
      WritesToAppend(a[1..], b, endpoint);
      assert (a + b)[1..] == a[1..] + b;
    } else {
      assert a + b == b;
    }
  }

  lemma {:induction false} CountsAppend(a: seq<Action>, b: seq<Action>)
    ensures WakeupCount(a + b) == WakeupCount(a) + WakeupCount(b)
    ensures SleepCount(a + b) == SleepCount(a) + SleepCount(b)
  {
    if a != [] {
      CountsAppend(a[1..], b);
      assert (a + b)[1..] == a[1..] + b;
    } else {
      assert a + b == b;
    }
  }

  /** The threshold is strict on both sides: a successful reading is sent iff it lies more than 0.5 away, so a delta of exactly 0.5 is not sent. */
  lemma ThresholdIsStrict(last: real, x: real)
    ensures Reports(last, Reading(EspOk, x)) <==> x < last - 0.5 || last + 0.5 < x
    ensures !Reports(last, Reading(EspOk, last + 0.5)) && !Reports(last, Reading(EspOk, last - 0.5))
  {
  }

  /** A failed read neither writes nor touches the retained value. */
  lemma FailedReadIsSkipped(endpoint: nat, last: real, r: Reading)
    requires r.err != EspOk
    ensures ChannelWrites(endpoint, last, r) == [] && Retain(last, r) == last
  {
  }

  /** After a send the retained value is the sent reading, and the same reading again is not sent. */
  lemma SentValueIsRetained(last: real, r: Reading)
    requires Reports(last, r)
    ensures Retain(last, r) == r.celsius
    ensures !Reports(Retain(last, r), r)
  {
  }

  /** A channel's writes, seen from one endpoint. */
  lemma ChannelWritesTo(endpoint: nat, last: real, r: Reading, e: nat)
    ensures WritesTo(ChannelWrites(endpoint, last, r), e) ==
      if e == endpoint && Reports(last, r) then [ToS16(r.celsius)] else []
  {
    var w := ChannelWrites(endpoint, last, r);
    if w != [] { assert w[1..] == []; }
  }

  /**
   * Each channel writes only to its own endpoint, at most once, exactly when
   * it reports, and with the scaled reading; no other endpoint is written.
   */
  lemma CycleWrites(last1: real, last2: real, r1: Reading, r2: Reading, endpoint: nat)
    ensures WritesTo(CycleActions(last1, last2, r1, r2), HaEspSensorEndpoint) ==
      (if Reports(last1, r1) then [ToS16(r1.celsius)] else [])
    ensures WritesTo(CycleActions(last1, last2, r1, r2), HaEspSensorEndpoint + 1) ==
      (if Reports(last2, r2) then [ToS16(r2.celsius)] else [])
    ensures endpoint != HaEspSensorEndpoint && endpoint != HaEspSensorEndpoint + 1 ==>
      WritesTo(CycleActions(last1, last2, r1, r2), endpoint) == []
  {
    var w1 := ChannelWrites(HaEspSensorEndpoint, last1, r1);
    var w2 := ChannelWrites(HaEspSensorEndpoint + 1, last2, r2);
    var tail := [EnableTimerWakeup(SleepDurationUs), DeepSleepStart];
    assert tail[1..] == [DeepSleepStart];
    assert tail[1..][1..] == [];
    forall e: nat
      ensures WritesTo(CycleActions(last1, last2, r1, r2), e) ==
        (if e == HaEspSensorEndpoint && Reports(last1, r1) then [ToS16(r1.celsius)] else []) +
        (if e == HaEspSensorEndpoint + 1 && Reports(last2, r2) then [ToS16(r2.celsius)] else [])
    {
      WritesToAppend(w1 + w2, tail, e);
      WritesToAppend(w1, w2, e);
      ChannelWritesTo(HaEspSensorEndpoint, last1, r1, e);
      ChannelWritesTo(HaEspSensorEndpoint + 1, last2, r2, e);
    }
  }

  /** A failed or suppressed reading on one channel never changes what the other channel writes or retains. */
  lemma ChannelsIndependent(last1: real, last2: real, r1: Reading, r2: Reading, last1': real, r1': Reading, last2': real, r2': Reading)
    ensures WritesTo(CycleActions(last1, last2, r1, r2), HaEspSensorEndpoint + 1) ==
      WritesTo(CycleActions(last1', last2, r1', r2), HaEspSensorEndpoint + 1)
    ensures WritesTo(CycleActions(last1, last2, r1, r2), HaEspSensorEndpoint) ==
      WritesTo(CycleActions(last1, last2', r1, r2'), HaEspSensorEndpoint)
  {
    CycleWrites(last1, last2, r1, r2, 0);
    CycleWrites(last1', last2, r1', r2, 0);
    CycleWrites(last1, last2', r1, r2', 0);
  }

  /** Every cycle arms the 30 s wake timer exactly once and ends by entering deep sleep, exactly once. */
  lemma CycleEndsInOneSleep(last1: real, last2: real, r1: Reading, r2: Reading)
    ensures var a := CycleActions(last1, last2, r1, r2);
      |a| >= 2 && a[|a| - 2..] == [EnableTimerWakeup(SleepDurationUs), DeepSleepStart] &&
      WakeupCount(a) == 1 && SleepCount(a) == 1
  {
    var w1 := ChannelWrites(HaEspSensorEndpoint, last1, r1);
    var w2 := ChannelWrites(HaEspSensorEndpoint + 1, last2, r2);
    var tail := [EnableTimerWakeup(SleepDurationUs), DeepSleepStart];
    CountsAppend(w1 + w2, tail);
    CountsAppend(w1, w2);
    assert tail[1..] == [DeepSleepStart];
    assert tail[1..][1..] == [];
    if w1 != [] { assert w1[1..] == []; }
    if w2 != [] { assert w2[1..] == []; }
  }

  /** When both reads fail the cycle writes nothing and only goes to sleep. */
  lemma BothReadsFail(last1: real, last2: real, r1: Reading, r2: Reading)
    requires r1.err != EspOk && r2.err != EspOk
    ensures CycleActions(last1, last2, r1, r2) == [EnableTimerWakeup(SleepDurationUs), DeepSleepStart]
    ensures Retain(last1, r1) == last1 && Retain(last2, r2) == last2
  {
  }

  /** With fewer than two probes bound, the second channel's read is always rejected, so it never reports. */
  lemma MissingProbeNeverReports(found: seq<OneWireDevice>, probe: OneWireDevice -> real, last: real)
    requires |found| < 2
    ensures SensorReading(found, 1, probe).err == EspErrInvalidArg
    ensures !Reports(last, SensorReading(found, 1, probe))
  {
  }

  /** The values one channel sends over successive cycles, starting from retained value `last`. */
  function SentTrace(last: real, rs: seq<Reading>): (sent: seq<real>)
    decreases |rs|
  {
    if rs == [] then []
    else (if Reports(last, rs[0]) then [rs[0].celsius] else []) + SentTrace(Retain(last, rs[0]), rs[1..])
  }

  /** The channel's retained value after successive cycles. */
  function RetainAfter(last: real, rs: seq<Reading>): (retained: real)
    decreases |rs|
  {
    if rs == [] then last else RetainAfter(Retain(last, rs[0]), rs[1..])
  }

  /** Across any number of cycles the retained value is the last value sent, or the starting value if nothing was sent. */
  lemma {:induction false} RetainedIsLastSent(last: real, rs: seq<Reading>)
    ensures var t := SentTrace(last, rs);
      RetainAfter(last, rs) == if t == [] then last else t[|t| - 1]
    decreases |rs|
  {
    if rs != [] {
      RetainedIsLastSent(Retain(last, rs[0]), rs[1..]);
    }
  }

  /** Every value in `t` is more than the threshold away from the one before it, the first from `last`. */
  predicate Spread(last: real, t: seq<real>) {
    (t != [] ==> Abs(t[0] - last) > DeltaThreshold) &&
    forall i :: 0 <= i < |t| - 1 ==> Abs(t[i + 1] - t[i]) > DeltaThreshold
  }

  /** No double reporting: every sent value is more than 0.5 from the one sent before it (the first, from the starting value). */
  lemma {:induction false} SentValuesSpread(last: real, rs: seq<Reading>)
    ensures Spread(last, SentTrace(last, rs))
    decreases |rs|
  {
    if rs != [] {
      var next := Retain(last, rs[0]);
      SentValuesSpread(next, rs[1..]);
      var rest := SentTrace(next, rs[1..]);
      if Reports(last, rs[0]) {
        var t := [rs[0].celsius] + rest;
        assert SentTrace(last, rs) == t;
        assert next == t[0];
        forall i | 0 <= i < |t| - 1
          ensures Abs(t[i + 1] - t[i]) > DeltaThreshold
        {
          assert t[i + 1] == rest[i];
          if i > 0 {
            assert t[i] == rest[i - 1];
          }
        }
      } else {
        assert SentTrace(last, rs) == rest;
      }
    }
  }

  /** The RTC-retained state: prev_tsens_value1 and prev_tsens_value2. */
  class RetainedState {
    var prev1: real
    var prev2: real

    /** Cold boot: both retained values start at 0.0. */
    constructor ()
      ensures prev1 == 0.0 && prev2 == 0.0
    {
      prev1, prev2 := 0.0, 0.0;
    }

    /**
     * temp_sensor_value_update: one cycle over the probes bound in `bank`,
     * whose temperatures `probe` gives. Returns the actions in the order issued.
     */
    method TempSensorValueUpdate(bank: SensorBank, probe: OneWireDevice -> real) returns (actions: seq<Action>)
      requires bank.Valid()
      modifies this
      ensures var r1 := SensorReading(bank.Found(), 0, probe);
        var r2 := SensorReading(bank.Found(), 1, probe);
        actions == CycleActions(old(prev1), old(prev2), r1, r2) &&
        prev1 == Retain(old(prev1), r1) && prev2 == Retain(old(prev2), r2)
    {
      // Both output variables start at 0.0; the bus transactions are not needed here.
      var err1, tsens1, _ := bank.ReadTemperature(0, 0.0, probe);
      var err2, tsens2, _ := bank.ReadTemperature(1, 0.0, probe);

      actions := [];
      if err1 == EspOk {
        var delta1 := tsens1 - prev1;
        if Abs(delta1) > DeltaThreshold {
          actions := actions + [SetMeasuredValue(HaEspSensorEndpoint, ToS16(tsens1))];
          prev1 := tsens1;
        }
      }
      if err2 == EspOk {
        var delta2 := tsens2 - prev2;
        if Abs(delta2) > DeltaThreshold {
          actions := actions + [SetMeasuredValue(HaEspSensorEndpoint + 1, ToS16(tsens2))];
          prev2 := tsens2;
        }
      }
      actions := actions + [EnableTimerWakeup(SleepDurationUs), DeepSleepStart];
    }
  }
}
