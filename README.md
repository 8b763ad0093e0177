# DS18B20 Zigbee end device: verified model of its core

A Dafny model of the firmware of an ESP32 Zigbee end device that reads up to
two DS18B20 temperature probes on a 1-Wire bus, reports each probe's reading
as the MeasuredValue of a Zigbee Temperature Measurement cluster on its own
endpoint, and then sleeps.

The model covers four pieces:

- **Temperature scaling** (`TemperatureScaling`, `zb_temperature_to_s16`).
  A Celsius value becomes centi-degrees by multiplying by 100 and truncating
  toward zero, as the C cast does. The ZCL Temperature Measurement cluster
  (section 4.4 of the Zigbee Cluster Library) expects this unit. The configured
  sensor range of -10 to 80 degrees fits int16.
- **Sensor discovery and reads** (`Ds18b20Sensor`, `ds18b20_init` and
  `ds18b20_read_temperature`). The class `SensorBank` holds the probe array
  `ds18b20s` (capacity 2) and its count `ds18b20_device_num`. `Init` walks the
  bus, which is a sequence of devices each flagged as accepted by the DS18B20
  driver or not. It is proved to leave the first two accepted devices, or all of
  them if there are fewer, densely packed, in bus order (`Discovered`), and to stop as soon as the array
  is full. `ReadTemperature` rejects an out-of-range index without touching
  the output. A valid read issues a conversion and then a fetch on that probe.
- **The report cycle** (`ReportCycle`, `temp_sensor_value_update`). The class
  `RetainedState` holds the two RTC-retained last-sent values. One cycle reads
  both probes. A channel is sent iff its read succeeded and moved strictly more
  than 0.5 degrees. A sent value becomes the retained value. The cycle always
  ends with one 30 000 000 µs timer wake-up followed by deep sleep. Lemmas show
  that the channels are independent and that each endpoint gets at most one
  write. Over any number of cycles, the retained value is the last value sent,
  and consecutive sent values differ by more than the threshold.
- **Zigbee signal dispatch** (`SignalHandler`, `esp_zb_app_signal_handler`).
  This is a pure map from a signal to the commissioning requests it makes,
  following the top-level commissioning and network-steering procedures of
  chapter 8 of the Zigbee Base Device Behavior specification. Over any run of
  signals, exactly one 1000 ms steering retry is scheduled per failed steering.

Temperatures are Dafny `real`s. Return codes are the ESP-IDF `esp_err_t`
values, as `int` (`EspErr`).

Three behaviours of the code are worth stating up front:

- The cast in `zb_temperature_to_s16` truncates; it does not round
  (`ToS16DoesNotRound`).
- The signal handler keeps no state of its own: each signal is handled on its
  own, so the model is a function of the signal alone.
- `ds18b20_init` runs on every boot, timer wakes included.
  `prev_tsens_value1/2` are the only variables of the application that survive
  deep sleep. The Zigbee stack's own persisted network state also survives, and
  the model takes it as the `factoryNew` input.

## Model

| member | source | states |
|---|---|---|
| TemperatureScaling.TruncateTowardZero | main/main.c:30 | the C conversion to an integer: the result is the integer next to x on the side of zero, within 1 of x |
| TemperatureScaling.ToS16 | main/main.c:29-31 | the MeasuredValue keeps the sign of the temperature, is never further from zero than 100 times it, and lies within one centi-degree of it |
| TemperatureScaling.ToS16OfHundredths | main/main.c:29-31 | a whole number of centi-degrees converts back exactly: ToS16(k / 100) == k |
| TemperatureScaling.ToS16DoesNotRound | main/main.c:29-31 | the conversion truncates rather than rounds: 0.019 gives 1 and -0.019 gives -1 |
| TemperatureScaling.ToS16Monotonic | main/main.c:29-31 | a higher temperature never gives a lower MeasuredValue |
| TemperatureScaling.ConfiguredBoundsFit | main/main.c:241-246 | the configured MinMeasuredValue and MaxMeasuredValue are -1000 and 8000, both within int16 |
| TemperatureScaling.ConfiguredRangeFits | main/main.h:14-15 | every temperature within the configured -10..80 range scales into int16, between the two bounds |
| Ds18b20Sensor.Accepted | main/ds18b20_sensor.c:49-58 | the devices the driver accepts are DS18B20s taken from the bus, no more of them than the bus holds |
| Ds18b20Sensor.Discovered | main/ds18b20_sensor.c:45-63 | discovery keeps at most MAX_DS18B20_SENSORS (2) devices: the first min(accepted, 2) accepted devices, in bus order |
| Ds18b20Sensor.AcceptedOfPrefix | main/ds18b20_sensor.c:49-58 | searching part of the bus accepts a prefix of what searching all of it accepts, so order is preserved |
| Ds18b20Sensor.AcceptedStep | main/ds18b20_sensor.c:53-58 | each searched device is appended iff the driver accepts it; others are skipped without error |
| Ds18b20Sensor.AcceptedEmptyIff | main/ds18b20_sensor.c:49-58 | nothing is accepted iff no device on the bus is a DS18B20 |
| Ds18b20Sensor.DiscoveredEmptyIff | main/ds18b20_sensor.c:70-75 | discovery finds nothing, the ESP_FAIL case, iff the bus holds no DS18B20 |
| Ds18b20Sensor.AcceptedDistinct | main/ds18b20_sensor.c:49-58 | devices with distinct bus addresses stay distinct once accepted |
| Ds18b20Sensor.DiscoveredDistinct | main/ds18b20_sensor.c:49-63 | on a bus whose devices have distinct addresses, as the 1-Wire ROM search yields them, discovery never binds two probes with the same address |
| Ds18b20Sensor.DiscoveryIgnoresRest | main/ds18b20_sensor.c:60-63 | once two probes are bound, devices later on the bus do not change the result |
| Ds18b20Sensor.DiscoveredAtStop | main/ds18b20_sensor.c:49-64 | a search that stops at the end of the bus or when the array is full has found exactly Discovered(bus) |
| Ds18b20Sensor.SearchStopsAtSecondProbe | main/ds18b20_sensor.c:60-63 | on a bus of two DS18B20s and then another device, the search stops after the second probe and never reaches the third device |
| Ds18b20Sensor.SensorBank.Found | main/ds18b20_sensor.c:15-16 | the bound probes are the first ds18b20_device_num slots of the array |
| Ds18b20Sensor.SensorBank.constructor | main/ds18b20_sensor.c:15-16 | at program start the probe array is empty and the count is 0 |
| Ds18b20Sensor.SensorBank.Init | main/ds18b20_sensor.c:19-76 | bus or iterator creation errors are returned unchanged, before the count is reset and before any search; otherwise the array holds Discovered(bus) densely from index 0, the search stops as SearchStopped says, and the result is ESP_FAIL iff no probe was bound, else ESP_OK |
| Ds18b20Sensor.SensorBank.Search | main/ds18b20_sensor.c:45-64 | the count is reset and the array ends up holding Discovered(bus); the search consumes the whole bus unless the array fills, and when it fills it stops right at the DS18B20 that filled it, so no later device is handed to the driver |
| Ds18b20Sensor.SensorBank.ReadTemperature | main/ds18b20_sensor.c:80-94 | an index below 0 or at least the count gives ESP_ERR_INVALID_ARG, leaves the output untouched and issues no bus transaction; a valid index gives ESP_OK and that probe's temperature, after a conversion and then a fetch on that probe |
| ReportCycle.ThresholdIsStrict | main/main.c:66-78 | a successful reading is sent iff it lies more than 0.5 degrees from the retained value, so a delta of exactly 0.5 is not sent |
| ReportCycle.FailedReadIsSkipped | main/main.c:92-94 | a failed read writes nothing and leaves the retained value unchanged |
| ReportCycle.SentValueIsRetained | main/main.c:88 | after a send the retained value equals the sent reading, and the same reading again is not sent |
| ReportCycle.ChannelWritesTo | main/main.c:78-88 | a channel writes the scaled reading to its own endpoint only, and only when it reports |
| ReportCycle.CycleWrites | main/main.c:73-118 | channel 1 writes only to HA_ESP_SENSOR_ENDPOINT and channel 2 only to HA_ESP_SENSOR_ENDPOINT + 1, at most once each, exactly when they report; no other endpoint is written |
| ReportCycle.ChannelsIndependent | main/main.c:69-118 | what one channel reads or retains never changes what the other channel writes |
| ReportCycle.CycleEndsInOneSleep | main/main.c:119-122 | every cycle arms the 30 000 000 µs wake timer exactly once and ends with exactly one deep-sleep entry, last |
| ReportCycle.BothReadsFail | main/main.c:69-122 | when both reads fail the cycle makes no attribute write, keeps both retained values and still goes to sleep |
| ReportCycle.MissingProbeNeverReports | main/main.c:70 | with fewer than two probes bound, channel 2's read is rejected every cycle, so it never reports |
| ReportCycle.RetainedIsLastSent | main/main.c:58-59 | over any number of cycles a channel's retained value is the last value it sent, or its starting value if it sent nothing |
| ReportCycle.SentValuesSpread | main/main.c:73-94 | no double reporting: each sent value differs by more than 0.5 from the value sent before it |
| ReportCycle.RetainedState.constructor | main/main.c:58-59 | at cold boot both retained values are 0.0 |
| ReportCycle.RetainedState.TempSensorValueUpdate | main/main.c:61-123 | reads probe 0 and probe 1, issues exactly CycleActions of the old retained values and those readings, and keeps Retain of each channel |
| SignalHandler.HandleSignal | main/main.c:127-175 | SKIP_STARTUP yields one INITIALIZATION commissioning start; FIRST_START or REBOOT yields one NETWORK_STEERING start iff OK and factory-new; a failed STEERING yields one steering retry alarm after 1000 ms; every other case yields nothing |
| SignalHandler.AlarmFires | main/main.c:35-38 | a fired alarm starts top-level commissioning in the mode it was scheduled with |
| SignalHandler.SteeringFailureRetriesSteering | main/main.c:158-169 | a failed steering schedules one alarm, and firing it restarts network steering |
| SignalHandler.QuietSignals | main/main.c:139-173 | a successful steering, a failed or non-factory-new start, and any other signal request nothing |
| SignalHandler.FactoryNewOnlyAffectsStart | main/main.c:139-156 | the factory-new flag affects only a successful FIRST_START or REBOOT |
| SignalHandler.OneRetryPerSteeringFailure | main/main.c:158-169 | over any run of signals, exactly one retry is scheduled per failed steering, each time it occurs, and every retry is network steering after 1000 ms |

## Left out

- Float arithmetic: temperatures are exact reals, so IEEE rounding of `temp * 100` and of the delta is not modelled.
- TemperatureScaling.ToS16OfHundredths: holds of exact reals only. The C product `temp * 100` is a 32-bit float, so a whole number of centi-degrees such as -40.94 can scale to -4093 rather than -4094. DS18B20 readings come in steps of 1/16 degree, and for those the float product is exact.
- TemperatureScaling.ToS16: returns the mathematical truncation; a value outside int16, undefined behaviour for the C cast, is not modelled. `ConfiguredRangeFits` shows the configured range stays inside int16.
- Ds18b20Sensor.SensorBank.ReadTemperature: the conversion and fetch calls sit inside `ESP_ERROR_CHECK`, which aborts the program on a bus error; the model only covers reads that return.
- Ds18b20Sensor.SensorBank.Init: the search iterator is the bus sequence; an iterator error in the middle of the search ends the loop like the end of the bus does, so it is modelled as a shorter bus. The `ESP_ERROR_CHECK` on deleting the iterator (an abort) is not modelled.
- When `ds18b20_new_device` rejects a device, the model leaves the array slot it was handed untouched; what the driver leaves there is not visible, and the slot lies beyond the count either way.
- The 1-Wire/RMT driver and the DS18B20 family check in `ds18b20_new_device` are library code; acceptance is an abstract flag per device, and the temperature a probe reports is a parameter.
- `vTaskDelay`, the deep-sleep hardware and the wake-cause check are not modelled; the sleep request is recorded as the last two actions of a cycle.
- The Zigbee stack (cluster and endpoint construction, reporting configuration, `esp_zb_init`, `esp_zb_start`, the main loop) and the logging of PAN ID and short address are foreign calls; only the requests the handler makes are modelled, and the factory-new flag is an input.
- `app_main` (task creation, concurrency between the Zigbee task and the sampling task, stopping when discovery fails) is platform setup and is not modelled.
- `esp_app_temp_sensor_handler` is never called and only wraps attribute writes in the stack lock; it is not modelled.
- main/main.h, main/ds18b20_sensor.h and ds18b20.js hold configuration and declarations only; their constants appear where used.
