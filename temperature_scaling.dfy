/**
 * Conversion of a Celsius reading into the MeasuredValue attribute of the
 * Zigbee Cluster Library Temperature Measurement cluster (section 4.4 of the
 * ZCL specification): a signed 16-bit count of hundredths of a degree.
 * The firmware multiplies by 100 and casts to int16_t, which truncates
 * toward zero; it does not round.
 */
module TemperatureScaling {
  const Int16Min: int := -0x8000
  const Int16Max: int := 0x7fff

  /** Configured MinMeasuredValue and MaxMeasuredValue of both sensors, in degrees Celsius. */
  const SensorMinCelsius: real := -10.0
  const SensorMaxCelsius: real := 80.0

  predicate InInt16(v: int) {
    Int16Min <= v <= Int16Max
  }

  /** The C conversion of a real to an integer: drop the fraction, toward zero. */
  function TruncateTowardZero(x: real): (n: int)
    ensures 0.0 <= x ==> n as real <= x < n as real + 1.0
    ensures x < 0.0 ==> n as real - 1.0 < x <= n as real
  {
    if 0.0 <= x then x.Floor else -((-x).Floor)
  }

  /**
   * zb_temperature_to_s16: centi-degrees, truncated toward zero. The result
   * keeps the sign of the temperature, is never further from zero than
   * 100 * celsius, and lies within one centi-degree of it.
   */
  function ToS16(celsius: real): (v: int)
    ensures 0.0 <= celsius ==> 0 <= v && v as real <= celsius * 100.0 < v as real + 1.0
    ensures celsius < 0.0 ==> v <= 0 && v as real - 1.0 < celsius * 100.0 <= v as real
  {
    TruncateTowardZero(celsius * 100.0)
  }

  /** A reading that is a whole number of centi-degrees converts exactly: ToS16 inverts division by 100. */
  lemma ToS16OfHundredths(centi: int)
    ensures ToS16(centi as real / 100.0) == centi
  {
    assert centi as real / 100.0 * 100.0 == centi as real;
  }

  /** A truncating conversion is not a rounding one: 0.019 degrees gives 1, not 2. */
  lemma ToS16DoesNotRound()
    ensures ToS16(0.019) == 1 && ToS16(-0.019) == -1
  {
    assert 0.019 * 100.0 == 1.9;
    assert (1.9).Floor == 1;
  }

  /** Larger temperatures never give smaller MeasuredValues. */
  lemma ToS16Monotonic(a: real, b: real)
    requires a <= b
    ensures ToS16(a) <= ToS16(b)
  {
  }

  /** The configured bounds -10 and 80 give -1000 and 8000, both representable as int16. */
  lemma ConfiguredBoundsFit()
    ensures ToS16(SensorMinCelsius) == -1000 && ToS16(SensorMaxCelsius) == 8000
    ensures InInt16(ToS16(SensorMinCelsius)) && InInt16(ToS16(SensorMaxCelsius))
  {
    ToS16OfHundredths(-1000);
    ToS16OfHundredths(8000);
  }

  /** Every temperature in the configured range converts without leaving int16. */
  lemma ConfiguredRangeFits(celsius: real)
    requires SensorMinCelsius <= celsius <= SensorMaxCelsius
    ensures ToS16(SensorMinCelsius) <= ToS16(celsius) <= ToS16(SensorMaxCelsius)
    ensures InInt16(ToS16(celsius))
  {
    ToS16Monotonic(SensorMinCelsius, celsius);
    ToS16Monotonic(celsius, SensorMaxCelsius);
    ConfiguredBoundsFit();
  }
}
