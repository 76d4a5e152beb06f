/**
 One analog channel's reading and its linear correction: the raw ADC count,
 the slope ("angular correction") and offset ("linear correction") that map
 it to a physical value, and the cached converted value. Doubles are
 modelled as `real`.
 */
module Measurement {

  /** Size of the fixed `id` character arrays of a channel. */
  const MeasurementIdSize := 32

  datatype Measurement = Measurement(
    adcValue: int,
    convertedValue: real,
    angularCorrection: real,
    linearCorrection: real,
    id: string)

  /** A channel's configuration as loaded at start-up; read-only afterwards. */
  datatype MeasurementSetting = MeasurementSetting(
    slope: real,
    offset: real,
    gainSetting: string,
    id: string,
    unit: string)

  /** The physical value the correction assigns to a raw count. */
  function Physical(adc: int, slope: real, offset: real): real {
    adc as real * slope + offset
  }

  /** Resets the reading and installs the identity correction; the id is kept. */
  function SetDefaultMeasurement(m: Measurement): (r: Measurement)
    ensures r.id == m.id
    ensures r.adcValue == 0 && r.convertedValue == 0.0
    ensures forall adc: int {:trigger Physical(adc, r.angularCorrection, r.linearCorrection)} ::
              Physical(adc, r.angularCorrection, r.linearCorrection) == adc as real
  {
    m.(adcValue := 0, convertedValue := 0.0, angularCorrection := 1.0, linearCorrection := 0.0)
  }

  /** Installs a new correction; the reading, the cache and the id are untouched. */
  function SetMeasurementCorrection(m: Measurement, angular: real, linear: real): (r: Measurement)
    ensures r.adcValue == m.adcValue && r.id == m.id && r.convertedValue == m.convertedValue
    ensures forall adc: int {:trigger Physical(adc, r.angularCorrection, r.linearCorrection)} ::
              Physical(adc, r.angularCorrection, r.linearCorrection) == adc as real * angular + linear
  {
    m.(angularCorrection := angular, linearCorrection := linear)
  }

  /** Recomputes the cached value from the reading and the correction; nothing else changes. */
  function ConvertMeasurement(m: Measurement): (r: Measurement)
    ensures r.(convertedValue := m.convertedValue) == m
    ensures r.convertedValue == Physical(m.adcValue, m.angularCorrection, m.linearCorrection)
  {
    m.(convertedValue := m.adcValue as real * m.angularCorrection + m.linearCorrection)
  }

  /**
   Converts, caches and returns the physical value: the pair is (value,
   updated measurement). The value is the stored count under the stored
   correction, and the measurement left behind differs from `m` only in
   caching that value.
   */
  function GetMeasurementValue(m: Measurement): (r: (real, Measurement))
    ensures r.0 == Physical(m.adcValue, m.angularCorrection, m.linearCorrection)
    ensures r.1 == m.(convertedValue := r.0)
  {
    var c := ConvertMeasurement(m);
    (c.convertedValue, c)
  }

  /** With the default correction the value read is the raw count itself. */
  lemma DefaultReadsRaw(m: Measurement, adc: int)
    ensures GetMeasurementValue(SetDefaultMeasurement(m).(adcValue := adc)).0 == adc as real
  {
    var d := SetDefaultMeasurement(m);
    assert Physical(adc, d.angularCorrection, d.linearCorrection) == adc as real;
  }

  /** Reading twice gives the same value and the same state as reading once. */
  lemma GetMeasurementValueIdempotent(m: Measurement)
    ensures GetMeasurementValue(GetMeasurementValue(m).1) == GetMeasurementValue(m)
  {
  }

  /** A new correction is what the next read applies to the stored reading. */
  lemma CorrectionThenRead(m: Measurement, angular: real, linear: real)
    ensures GetMeasurementValue(SetMeasurementCorrection(m, angular, linear)).0
            == m.adcValue as real * angular + linear
  {
    var c := SetMeasurementCorrection(m, angular, linear);
    assert Physical(m.adcValue, c.angularCorrection, c.linearCorrection) == m.adcValue as real * angular + linear;
  }
}
