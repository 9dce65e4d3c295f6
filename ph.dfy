/** The pH calibration of src/ph.rs: a clamped linear interpolation from the raw ADC reading
    to centi-pH (pH * 100), inverted -- a higher reading means a lower pH. */
module Ph {
  const PH_MIN_ADC: nat := 1020  // reading at the lowest pH
  const PH_MAX_ADC: nat := 650   // reading at the highest pH
  const PH_MIN: nat := 200       // pH 2.00
  const PH_MAX: nat := 1400      // pH 14.00

  /** adc_to_ph. The interpolation runs in u32 and its quotient is cast back to u16; both
      are exact here (see InterpolationFits). */
  function AdcToPh(raw: int): (ph: int)
    requires 0 <= raw < 0x1_0000
    ensures PH_MIN <= ph <= PH_MAX
    ensures raw >= PH_MIN_ADC ==> ph == PH_MIN
    ensures raw <= PH_MAX_ADC ==> ph == PH_MAX
    ensures PH_MAX_ADC < raw < PH_MIN_ADC ==> PH_MIN < ph < PH_MAX
  {
    if raw >= PH_MIN_ADC then PH_MIN
    else if raw <= PH_MAX_ADC then PH_MAX
    else
      var adcRange := PH_MIN_ADC - PH_MAX_ADC;
      var phRange := PH_MAX - PH_MIN;
      var adcPosition := PH_MIN_ADC - raw;
      PH_MIN + (adcPosition * phRange) / adcRange
  }

  /** Inside the calibrated band the result is the line through (1020, 2.00) and
      (650, 14.00), rounded down to a whole centi-pH. */
  lemma OnCalibrationLine(raw: int)
    requires PH_MAX_ADC < raw < PH_MIN_ADC
    ensures var ph := AdcToPh(raw);
      (ph - PH_MIN) * (PH_MIN_ADC - PH_MAX_ADC) <= (PH_MIN_ADC - raw) * (PH_MAX - PH_MIN)
        < (ph - PH_MIN + 1) * (PH_MIN_ADC - PH_MAX_ADC)
  {
  }

  /** The u32 product is at most 369 * 1200 = 442800 and the quotient at most 1196, so
      neither the u32 arithmetic nor the cast to u16 loses anything. */
  lemma InterpolationFits(raw: int)
    requires PH_MAX_ADC < raw < PH_MIN_ADC
    ensures (PH_MIN_ADC - raw) * (PH_MAX - PH_MIN) <= 442800 < 0x1_0000_0000
    ensures (PH_MIN_ADC - raw) * (PH_MAX - PH_MIN) / (PH_MIN_ADC - PH_MAX_ADC) <= 1196
  {
  }

  /** A higher reading never gives a higher pH. */
  lemma AdcToPhMonotone(raw1: int, raw2: int)
    requires 0 <= raw1 <= raw2 < 0x1_0000
    ensures AdcToPh(raw2) <= AdcToPh(raw1)
  {
  }
}
